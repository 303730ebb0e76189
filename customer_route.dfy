/** The customers POST handler as a function of the stored customers:
    presence check (400), the schema's setters and validators (400 on a
    `ValidationError`), the unique index on email (500, since its error is
    not a `ValidationError`), insert (201). */
module CustomerRoute {
  import opened Common
  import opened Text
  import opened CustomerModel

  datatype CustomerRequest = CustomerRequest(
    firstName: Option<string>,
    lastName: Option<string>,
    email: Option<string>,
    phoneNumber: Option<string>,
    address: Option<string>)

  datatype CustomerReply = CustomerReply(status: nat, customers: seq<Customer>, nextId: nat)

  /** `!firstName || !lastName || !email || !PhoneNumber || !Address`. */
  predicate AnyFieldFalsy(req: CustomerRequest)
  {
    Falsy(req.firstName) || Falsy(req.lastName) || Falsy(req.email) ||
    Falsy(req.phoneNumber) || Falsy(req.address)
  }

  /** `new Customer({...})`: every field trimmed, the email also lower-cased. */
  function Document(req: CustomerRequest, id: Id): (c: Customer)
    requires !AnyFieldFalsy(req)
    ensures c.id == id
    ensures Trimmed(c.firstName) && Trimmed(c.lastName) && Trimmed(c.phoneNumber) &&
            Trimmed(c.address) && Trimmed(c.email)
  {
    Customer(id, Trim(req.firstName.value), Trim(req.lastName.value), NormalizeEmail(req.email.value),
             Trim(req.phoneNumber.value), Trim(req.address.value))
  }

  /** The validators run at save: `required` on every (trimmed) field and
      `match` on the email. */
  predicate DocumentValid(c: Customer)
  {
    c.firstName != [] && c.lastName != [] && c.phoneNumber != [] && c.address != [] &&
    c.email != [] && EmailPattern(c.email)
  }

  /** The unique index on `email`. */
  predicate EmailTaken(customers: seq<Customer>, email: string)
  {
    exists k :: 0 <= k < |customers| && customers[k].email == email
  }

  /** The handler. */
  function RegisterStep(customers: seq<Customer>, nextId: nat, req: CustomerRequest): (r: CustomerReply)
    ensures r.status in {StatusCreated, StatusBadRequest, StatusServerError}
    ensures r.status != StatusCreated ==> r.customers == customers && r.nextId == nextId
    ensures r.status == StatusCreated ==>
              |r.customers| == |customers| + 1 && r.customers[..|customers|] == customers &&
              r.nextId == nextId + 1
  {
    if AnyFieldFalsy(req) then CustomerReply(StatusBadRequest, customers, nextId)
    else
      var c := Document(req, nextId);
      if !DocumentValid(c) then CustomerReply(StatusBadRequest, customers, nextId)
      else if EmailTaken(customers, c.email) then CustomerReply(StatusServerError, customers, nextId)
      else CustomerReply(StatusCreated, customers + [c], nextId + 1)
  }

  /** The handler's control flow over the stored customers: the checks in
      the order the source makes them, answering with the status and the
      collection and identity generator it leaves behind. It takes no store,
      so the store's method only calls it and writes the result, which keeps
      that method's proof small. */
  method Register(customers: seq<Customer>, nextId: nat, req: CustomerRequest)
    returns (status: nat, written: seq<Customer>, next: nat)
    ensures CustomerReply(status, written, next) == RegisterStep(customers, nextId, req)
  {
    written, next := customers, nextId;
    if AnyFieldFalsy(req) {
      return StatusBadRequest, written, next;
    }
    var newCustomer := Document(req, nextId);
    if !DocumentValid(newCustomer) {
      return StatusBadRequest, written, next;
    }
    if EmailTaken(customers, newCustomer.email) {
      return StatusServerError, written, next;
    }
    written, next := customers + [newCustomer], nextId + 1;
    status := StatusCreated;
  }

  /** A missing or empty field: 400 "Missing required fields." and no write. */
  lemma RegisterRejectsMissingField(customers: seq<Customer>, nextId: nat, req: CustomerRequest)
    requires AnyFieldFalsy(req)
    ensures RegisterStep(customers, nextId, req) == CustomerReply(StatusBadRequest, customers, nextId)
  {
  }

  /** A field made only of white space passes the presence check, is
      trimmed to nothing and fails `required`: 400 and no write. */
  lemma RegisterRejectsBlankField(customers: seq<Customer>, nextId: nat, req: CustomerRequest)
    requires !AnyFieldFalsy(req)
    requires AllSpace(req.firstName.value) || AllSpace(req.lastName.value) ||
             AllSpace(req.email.value) || AllSpace(req.phoneNumber.value) || AllSpace(req.address.value)
    ensures RegisterStep(customers, nextId, req) == CustomerReply(StatusBadRequest, customers, nextId)
  {
  }

  /** An email whose normalized form does not match the pattern: the
      `ValidationError` gives 400 and no write. */
  lemma RegisterRejectsBadEmail(customers: seq<Customer>, nextId: nat, req: CustomerRequest)
    requires !AnyFieldFalsy(req)
    requires !EmailPattern(NormalizeEmail(req.email.value))
    ensures RegisterStep(customers, nextId, req) == CustomerReply(StatusBadRequest, customers, nextId)
  {
  }

  /** Any document the validators refuse (a blank field, a bad email):
      the `ValidationError` gives 400 and no write, whether or not the email
      is already taken. */
  lemma RegisterRejectsInvalidDocument(customers: seq<Customer>, nextId: nat, req: CustomerRequest)
    requires !AnyFieldFalsy(req) && !DocumentValid(Document(req, nextId))
    ensures RegisterStep(customers, nextId, req) == CustomerReply(StatusBadRequest, customers, nextId)
  {
  }

  /** A valid document whose normalized email is already stored: the
      duplicate-key error is not a `ValidationError`, so 500 and no write. */
  lemma RegisterRejectsDuplicateEmail(customers: seq<Customer>, nextId: nat, req: CustomerRequest)
    requires !AnyFieldFalsy(req) && DocumentValid(Document(req, nextId))
    requires EmailTaken(customers, NormalizeEmail(req.email.value))
    ensures RegisterStep(customers, nextId, req) == CustomerReply(StatusServerError, customers, nextId)
  {
  }

  /** 201 exactly when the fields are present, the document valid and the
      email free; then exactly the normalized document is appended, with a
      fresh identity. */
  lemma RegisterSucceedsIff(customers: seq<Customer>, nextId: nat, req: CustomerRequest)
    ensures var r := RegisterStep(customers, nextId, req);
            r.status == StatusCreated <==>
              && !AnyFieldFalsy(req)
              && DocumentValid(Document(req, nextId))
              && !EmailTaken(customers, NormalizeEmail(req.email.value))
    ensures var r := RegisterStep(customers, nextId, req);
            r.status == StatusCreated ==>
              r.customers == customers + [Document(req, nextId)] && r.nextId == nextId + 1
  {
  }

  /** A stored customer is exactly what the schema promises: every field
      present and trimmed, the email normalized and matching the pattern. */
  lemma RegisteredCustomerValid(customers: seq<Customer>, nextId: nat, req: CustomerRequest)
    requires RegisterStep(customers, nextId, req).status == StatusCreated
    ensures ValidCustomer(RegisterStep(customers, nextId, req).customers[|customers|])
    ensures NormalizeEmail(RegisterStep(customers, nextId, req).customers[|customers|].email) ==
            RegisterStep(customers, nextId, req).customers[|customers|].email
  {
    RegisterSucceedsIff(customers, nextId, req);
    var c := Document(req, nextId);
    assert RegisterStep(customers, nextId, req).customers[|customers|] == c;
    assert LowerCase(c.email);
    NormalFormFixed(c.email);
  }

  /** The handler keeps the collection constraints, the unique email
      among them. */
  lemma RegisterKeepsInvariant(customers: seq<Customer>, nextId: nat, req: CustomerRequest)
    requires CustomersInvariant(customers, nextId)
    ensures var r := RegisterStep(customers, nextId, req);
            CustomersInvariant(r.customers, r.nextId) && r.nextId >= nextId
  {
    var r := RegisterStep(customers, nextId, req);
    if r.status == StatusCreated {
      RegisterSucceedsIff(customers, nextId, req);
      RegisteredCustomerValid(customers, nextId, req);
      var c := Document(req, nextId);
      assert r.customers == customers + [c];
      AppendKeepsInvariant(customers, nextId, c);
    }
  }

  /** Appending a valid customer with the next identity and an unused
      email keeps the collection constraints. */
  lemma AppendKeepsInvariant(customers: seq<Customer>, nextId: nat, c: Customer)
    requires CustomersInvariant(customers, nextId)
    requires ValidCustomer(c) && c.id == nextId && !EmailTaken(customers, c.email)
    ensures CustomersInvariant(customers + [c], nextId + 1)
  {
    var s := customers + [c];
    var n := |customers|;
    forall k | 0 <= k < |s| ensures ValidCustomer(s[k]) && s[k].id < nextId + 1 {
      if k < n {
        assert s[k] == customers[k];
        assert ValidCustomer(customers[k]);
      } else {
        assert s[k] == c;
      }
    }
    forall k, l | 0 <= k < l < |s| ensures s[k].id != s[l].id && s[k].email != s[l].email {
      assert s[k] == customers[k];
      if l < n {
        assert s[l] == customers[l];
      }
    }
  }

  /** Registering a second customer whose email normalizes to one just
      registered fails with 500, however its case or padding differ. */
  lemma RegisterSameEmailTwice(customers: seq<Customer>, nextId: nat, req1: CustomerRequest, req2: CustomerRequest)
    requires RegisterStep(customers, nextId, req1).status == StatusCreated
    requires !AnyFieldFalsy(req2)
    requires NormalizeEmail(req2.email.value) == NormalizeEmail(req1.email.value)
    requires DocumentValid(Document(req2, nextId + 1))
    ensures var first := RegisterStep(customers, nextId, req1);
            RegisterStep(first.customers, first.nextId, req2) ==
            CustomerReply(StatusServerError, first.customers, first.nextId)
  {
    RegisterSucceedsIff(customers, nextId, req1);
    var first := RegisterStep(customers, nextId, req1);
    var c1 := Document(req1, nextId);
    assert first.customers == customers + [c1];
    assert first.customers[|customers|] == c1;
    assert EmailTaken(first.customers, NormalizeEmail(req2.email.value));
  }
}
