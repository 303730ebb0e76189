/** The services POST handler as a function of the stored services:
    presence and type checks (400), then update the record with that name
    in place (200) or insert a new one (201), the schema rejecting a name
    outside the list (400). */
module ServiceRoute {
  import opened Common
  import opened Text
  import opened ServiceModel

  /** `hourlyRate` as it arrives in the JSON body. */
  datatype RateInput = Absent | Number(value: real) | NotNumber

  datatype ServiceRequest = ServiceRequest(serviceName: Option<string>, hourlyRate: RateInput)

  datatype ServiceReply = ServiceReply(status: nat, services: seq<Service>, nextId: nat)

  /** `Service.findOne({ serviceName })`: the first stored service whose
      name is `name`. */
  function FindByName(services: seq<Service>, name: string): (r: Option<nat>)
    ensures r.Some? ==> r.value < |services| && NameString(services[r.value].name) == name
    ensures r.Some? ==> forall k :: 0 <= k < r.value ==> NameString(services[k].name) != name
    ensures r.None? ==> forall k :: 0 <= k < |services| ==> NameString(services[k].name) != name
  {
    if services == [] then None
    else if NameString(services[0].name) == name then Some(0)
    else match FindByName(services[1..], name)
      case Some(k) => Some(k + 1)
      case None => None
  }

  /** The two input checks of the handler. */
  predicate InputValid(req: ServiceRequest)
  {
    !Falsy(req.serviceName) && req.hourlyRate.Number? && req.hourlyRate.value >= 0.0
  }

  /** The handler. The name is trimmed by the schema's setter, both in the
      query and in a new document. */
  function UpsertStep(services: seq<Service>, nextId: nat, req: ServiceRequest): (r: ServiceReply)
    ensures r.status in {StatusOk, StatusCreated, StatusBadRequest}
    ensures r.status == StatusBadRequest ==> r.services == services && r.nextId == nextId
    ensures r.status == StatusOk ==> |r.services| == |services| && r.nextId == nextId
    ensures r.status == StatusCreated ==>
              |r.services| == |services| + 1 && r.services[..|services|] == services &&
              r.nextId == nextId + 1
  {
    if Falsy(req.serviceName) || req.hourlyRate.Absent? then ServiceReply(StatusBadRequest, services, nextId)
    else if req.hourlyRate.NotNumber? || req.hourlyRate.value < 0.0 then ServiceReply(StatusBadRequest, services, nextId)
    else
      var name := Trim(req.serviceName.value);
      var rate := req.hourlyRate.value;
      match FindByName(services, name)
      case Some(k) => ServiceReply(StatusOk, services[k := services[k].(hourlyRate := rate)], nextId)
      case None =>
        if ServiceDocumentValid(name, rate)
        then ServiceReply(StatusCreated, services + [Service(nextId, ParseName(name).value, rate)], nextId + 1)
        else ServiceReply(StatusBadRequest, services, nextId)
  }

  /** A missing name or rate, a rate that is not a number, or a negative
      rate: 400 and no write. */
  lemma UpsertRejectsBadInput(services: seq<Service>, nextId: nat, req: ServiceRequest)
    requires !InputValid(req)
    ensures UpsertStep(services, nextId, req) == ServiceReply(StatusBadRequest, services, nextId)
  {
  }

  /** A service with that name exists: only the first such record changes,
      and only its rate; the answer is 200. */
  lemma UpsertUpdatesInPlace(services: seq<Service>, nextId: nat, req: ServiceRequest, k: nat)
    requires InputValid(req)
    requires k < |services| && NameString(services[k].name) == Trim(req.serviceName.value)
    ensures var r := UpsertStep(services, nextId, req);
            && r.status == StatusOk && r.nextId == nextId && |r.services| == |services|
            && exists f :: 0 <= f <= k && NameString(services[f].name) == Trim(req.serviceName.value) &&
                 r.services == services[f := Service(services[f].id, services[f].name, req.hourlyRate.value)]
  {
    var f := FindByName(services, Trim(req.serviceName.value)).value;
    assert f <= k;
  }

  /** No service has that name: a valid list name is appended with a fresh
      identity and the rate (201); any other name fails the schema (400). */
  lemma UpsertCreates(services: seq<Service>, nextId: nat, req: ServiceRequest)
    requires InputValid(req)
    requires forall k :: 0 <= k < |services| ==> NameString(services[k].name) != Trim(req.serviceName.value)
    ensures var name := Trim(req.serviceName.value);
            var r := UpsertStep(services, nextId, req);
            match ParseName(name)
            case Some(n) => r == ServiceReply(StatusCreated, services + [Service(nextId, n, req.hourlyRate.value)], nextId + 1)
            case None => r == ServiceReply(StatusBadRequest, services, nextId)
  {
  }

  /** Records with other names are untouched by any upsert. */
  lemma UpsertLeavesOtherNames(services: seq<Service>, nextId: nat, req: ServiceRequest, k: nat)
    requires k < |services|
    requires req.serviceName.Some? ==> NameString(services[k].name) != Trim(req.serviceName.value)
    ensures var r := UpsertStep(services, nextId, req);
            k < |r.services| && r.services[k] == services[k]
  {
  }

  /** The record the handler leaves behind: after a 200 or 201 the first
      service found under that name has the new rate. */
  lemma UpsertSetsRate(services: seq<Service>, nextId: nat, req: ServiceRequest)
    requires UpsertStep(services, nextId, req).status != StatusBadRequest
    ensures var r := UpsertStep(services, nextId, req);
            var found := FindByName(r.services, Trim(req.serviceName.value));
            found.Some? && r.services[found.value].hourlyRate == req.hourlyRate.value
  {
    var name := Trim(req.serviceName.value);
    var rate := req.hourlyRate.value;
    match FindByName(services, name)
    case Some(k) =>
      FindAfterRateChange(services, name, k, rate);
    case None =>
      FindAfterAppend(services, name, Service(nextId, ParseName(name).value, rate));
  }

  /** Changing the rate of the record found under a name keeps it the
      one found. */
  lemma FindAfterRateChange(services: seq<Service>, name: string, k: nat, rate: real)
    requires FindByName(services, name) == Some(k)
    ensures FindByName(services[k := services[k].(hourlyRate := rate)], name) == Some(k)
  {
    var s' := services[k := services[k].(hourlyRate := rate)];
    assert forall m :: 0 <= m < k ==> s'[m] == services[m];
    var found := FindByName(s', name);
    assert NameString(s'[k].name) == name;
    assert found.Some? && found.value <= k;
  }

  /** A record appended under a name no stored record has is the one
      found. */
  lemma FindAfterAppend(services: seq<Service>, name: string, s: Service)
    requires FindByName(services, name).None? && NameString(s.name) == name
    ensures FindByName(services + [s], name) == Some(|services|)
  {
    var s' := services + [s];
    assert forall m :: 0 <= m < |services| ==> s'[m] == services[m];
    var found := FindByName(s', name);
    assert NameString(s'[|services|].name) == name;
    assert found.Some? && found.value <= |services|;
  }

  /** Upsert converges on the name: a second call with the same name and
      any valid rate answers 200, adds no record, and leaves the found
      record with the second rate. */
  lemma UpsertConverges(services: seq<Service>, nextId: nat, name: string, rate1: real, rate2: real)
    requires UpsertStep(services, nextId, ServiceRequest(Some(name), Number(rate1))).status != StatusBadRequest
    requires rate2 >= 0.0
    ensures var first := UpsertStep(services, nextId, ServiceRequest(Some(name), Number(rate1)));
            var second := UpsertStep(first.services, first.nextId, ServiceRequest(Some(name), Number(rate2)));
            && second.status == StatusOk
            && |second.services| == |first.services|
            && second.nextId == first.nextId
            && var found := FindByName(second.services, Trim(name));
               found.Some? && second.services[found.value].hourlyRate == rate2
  {
    var first := UpsertStep(services, nextId, ServiceRequest(Some(name), Number(rate1)));
    UpsertSetsRate(services, nextId, ServiceRequest(Some(name), Number(rate1)));
    UpsertSetsRate(first.services, first.nextId, ServiceRequest(Some(name), Number(rate2)));
  }

  /** The handler keeps the collection constraints: rates non-negative,
      identities distinct and below the next one. */
  lemma UpsertKeepsInvariant(services: seq<Service>, nextId: nat, req: ServiceRequest)
    requires ServicesInvariant(services, nextId)
    ensures var r := UpsertStep(services, nextId, req);
            ServicesInvariant(r.services, r.nextId) && r.nextId >= nextId
    ensures var r := UpsertStep(services, nextId, req);
            forall k :: 0 <= k < |services| ==> r.services[k].id == services[k].id
  {
    var r := UpsertStep(services, nextId, req);
    if !InputValid(req) {
      assert r.services == services && r.nextId == nextId;
    } else {
      var name := Trim(req.serviceName.value);
      var rate := req.hourlyRate.value;
      match FindByName(services, name)
      case Some(k) =>
        assert r == ServiceReply(StatusOk, services[k := services[k].(hourlyRate := rate)], nextId);
        RateChangeKeepsInvariant(services, nextId, k, rate);
      case None =>
        if ServiceDocumentValid(name, rate) {
          var s := Service(nextId, ParseName(name).value, rate);
          assert r == ServiceReply(StatusCreated, services + [s], nextId + 1);
          AppendServiceKeepsInvariant(services, nextId, s);
        } else {
          assert r.services == services && r.nextId == nextId;
        }
    }
  }

  /** A new non-negative rate on one record keeps the constraints and
      every identity. */
  lemma RateChangeKeepsInvariant(services: seq<Service>, nextId: nat, k: nat, rate: real)
    requires ServicesInvariant(services, nextId) && k < |services| && rate >= 0.0
    ensures var s' := services[k := services[k].(hourlyRate := rate)];
            ServicesInvariant(s', nextId) && forall m :: 0 <= m < |services| ==> s'[m].id == services[m].id
  {
  }

  /** Appending a record with the next identity and a non-negative rate
      keeps the constraints once the generator moves on. */
  lemma AppendServiceKeepsInvariant(services: seq<Service>, nextId: nat, s: Service)
    requires ServicesInvariant(services, nextId) && s.id == nextId && s.hourlyRate >= 0.0
    ensures ServicesInvariant(services + [s], nextId + 1)
    ensures forall m :: 0 <= m < |services| ==> (services + [s])[m] == services[m]
  {
    var s' := services + [s];
    assert forall m :: 0 <= m < |services| ==> s'[m] == services[m];
  }

  /** The handler alone keeps one record per name. */
  lemma UpsertKeepsNamesDistinct(services: seq<Service>, nextId: nat, req: ServiceRequest)
    requires NamesDistinct(services)
    ensures NamesDistinct(UpsertStep(services, nextId, req).services)
  {
    var r := UpsertStep(services, nextId, req);
    if r.status == StatusCreated {
      var n := |services|;
      var name := Trim(req.serviceName.value);
      forall k, l | 0 <= k < l < |r.services| ensures r.services[k].name != r.services[l].name {
        if l == n {
          assert NameString(r.services[n].name) == name;
          assert r.services[k] == services[k];
        } else {
          assert r.services[k] == services[k] && r.services[l] == services[l];
        }
      }
    }
  }

  /** With one record per name to begin with, a successful upsert leaves
      exactly one record under that name, with the new rate. */
  lemma UpsertLeavesSingleRecord(services: seq<Service>, nextId: nat, req: ServiceRequest)
    requires NamesDistinct(services)
    requires UpsertStep(services, nextId, req).status != StatusBadRequest
    ensures var r := UpsertStep(services, nextId, req);
            exists k :: 0 <= k < |r.services| && NameString(r.services[k].name) == Trim(req.serviceName.value) &&
              r.services[k].hourlyRate == req.hourlyRate.value &&
              forall l :: 0 <= l < |r.services| && l != k ==> NameString(r.services[l].name) != Trim(req.serviceName.value)
  {
    var r := UpsertStep(services, nextId, req);
    UpsertSetsRate(services, nextId, req);
    UpsertKeepsNamesDistinct(services, nextId, req);
    var k := FindByName(r.services, Trim(req.serviceName.value)).value;
    forall l | 0 <= l < |r.services| && l != k
      ensures NameString(r.services[l].name) != Trim(req.serviceName.value)
    {
      if NameString(r.services[l].name) == NameString(r.services[k].name) {
        NameStringInjective(r.services[l].name, r.services[k].name);
        assert false;
      }
    }
  }

  lemma NameStringInjective(a: ServiceName, b: ServiceName)
    requires NameString(a) == NameString(b)
    ensures a == b
  {
    ParseNameString(a);
    ParseNameString(b);
  }

  /** The worked example: Plumbing at 100, then Plumbing at 150, on an
      empty collection, gives one Plumbing record at 150. */
  lemma UpsertExample(nextId: nat)
    ensures var first := UpsertStep([], nextId, ServiceRequest(Some("Plumbing"), Number(100.0)));
            var second := UpsertStep(first.services, first.nextId, ServiceRequest(Some("Plumbing"), Number(150.0)));
            first.status == StatusCreated && second.status == StatusOk &&
            second.services == [Service(nextId, Plumbing, 150.0)]
  {
    NameStringTrimmed(Plumbing);
  }
}
