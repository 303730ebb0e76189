/** Pricing a booking request: the rate map built from the services the
    request names, and the loop that adds rate × hours over the line items,
    failing on the first item whose rate is missing or zero. */
module Pricing {
  import opened Common
  import opened ServiceModel
  import opened BookingModel

  /** The identities the request names (`services.map(s => s.serviceId)`
      used as an `$in` filter). */
  function WantedIds(items: seq<LineItem>): set<Id>
  {
    set j | 0 <= j < |items| && items[j].serviceId.Some? :: items[j].serviceId.value
  }

  predicate ServiceExists(services: seq<Service>, id: Id)
  {
    exists k :: 0 <= k < |services| && services[k].id == id
  }

  /** `new Map(serviceDocs.map(s => [id, hourlyRate]))` over the services
      whose identity is wanted. Keys are exactly the wanted identities that
      exist; with distinct identities each maps to its service's rate. */
  function RateMap(services: seq<Service>, wanted: set<Id>): (m: map<Id, real>)
    ensures forall id :: id in m <==> id in wanted && ServiceExists(services, id)
    ensures IdsDistinct(services) ==>
              forall k :: 0 <= k < |services| && services[k].id in wanted ==>
                services[k].id in m && m[services[k].id] == services[k].hourlyRate
  {
    if services == [] then map[]
    else
      var n := |services| - 1;
      var m := RateMap(services[..n], wanted);
      assert forall id :: ServiceExists(services[..n], id) ==> ServiceExists(services, id);
      assert forall id :: ServiceExists(services, id) ==>
               ServiceExists(services[..n], id) || services[n].id == id;
      assert IdsDistinct(services) ==> IdsDistinct(services[..n]);
      assert forall k :: 0 <= k < n ==> services[..n][k] == services[k];
      if services[n].id in wanted then m[services[n].id := services[n].hourlyRate] else m
  }

  /** The truthiness test `if (!rate)` on `rateMap.get(serviceId)`: a line
      item is priced when its identity is present, in the map, and its rate
      is not zero. */
  predicate HasRate(rates: map<Id, real>, id: Option<Id>)
  {
    id.Some? && id.value in rates && rates[id.value] != 0.0
  }

  /** What one line contributes: rate × hours. */
  function Charge(rate: real, hours: real): real
  {
    rate * hours
  }

  /** `rate * s.numberOfHours`; `None` is NaN, from a missing number of hours. */
  function LineAmount(rate: real, hours: Option<real>): Option<real>
  {
    if hours.Some? then Some(Charge(rate, hours.value)) else None
  }

  /** `+` on JavaScript numbers: NaN absorbs. */
  function AddAmount(a: Option<real>, b: Option<real>): Option<real>
  {
    if a.Some? && b.Some? then Some(a.value + b.value) else None
  }

  /** The outcome of the pricing loop: a total, or the thrown error naming
      the first line item without a rate. */
  datatype PriceOutcome = Priced(total: Option<real>) | Unpriced(serviceId: Option<Id>)

  /** The pricing loop, item by item from the first. */
  function Price(items: seq<LineItem>, rates: map<Id, real>): PriceOutcome
  {
    if items == [] then Priced(Some(0.0))
    else
      var n := |items| - 1;
      match Price(items[..n], rates)
      case Unpriced(id) => Unpriced(id)
      case Priced(t) =>
        if HasRate(rates, items[n].serviceId)
        then Priced(AddAmount(t, LineAmount(rates[items[n].serviceId.value], items[n].numberOfHours)))
        else Unpriced(items[n].serviceId)
  }

  predicate AllPriced(items: seq<LineItem>, rates: map<Id, real>)
  {
    forall j :: 0 <= j < |items| ==> HasRate(rates, items[j].serviceId)
  }

  predicate AllHours(items: seq<LineItem>)
  {
    forall j :: 0 <= j < |items| ==> items[j].numberOfHours.Some?
  }

  /** The reference total: Σ rate(serviceId) × numberOfHours over the line
      items, one term per line (a service named on two lines counts twice). */
  function LineSum(items: seq<LineItem>, rates: map<Id, real>): real
    requires AllPriced(items, rates) && AllHours(items)
  {
    if items == [] then 0.0
    else Charge(rates[items[0].serviceId.value], items[0].numberOfHours.value) + LineSum(items[1..], rates)
  }

  lemma {:induction false} LineSumAppend(a: seq<LineItem>, b: seq<LineItem>, rates: map<Id, real>)
    requires AllPriced(a, rates) && AllHours(a) && AllPriced(b, rates) && AllHours(b)
    ensures AllPriced(a + b, rates) && AllHours(a + b)
    ensures LineSum(a + b, rates) == LineSum(a, rates) + LineSum(b, rates)
    decreases |a|
  {
    if a == [] {
      assert a + b == b;
    } else {
      assert (a + b)[1..] == a[1..] + b;
      LineSumAppend(a[1..], b, rates);
    }
  }

  /** Once the loop has thrown, later items do not matter. */
  lemma {:induction false} UnpricedSticky(items: seq<LineItem>, rates: map<Id, real>, m: nat)
    requires m <= |items| && Price(items[..m], rates).Unpriced?
    ensures Price(items, rates) == Price(items[..m], rates)
    decreases |items|
  {
    if m == |items| {
      assert items[..m] == items;
    } else {
      var n := |items| - 1;
      assert items[..n][..m] == items[..m];
      UnpricedSticky(items[..n], rates, m);
    }
  }

  /** Every line priced and every number of hours present: the loop yields
      exactly the reference total. */
  lemma {:induction false} PriceTotal(items: seq<LineItem>, rates: map<Id, real>)
    requires AllPriced(items, rates) && AllHours(items)
    ensures Price(items, rates) == Priced(Some(LineSum(items, rates)))
    decreases |items|
  {
    if items != [] {
      var n := |items| - 1;
      var prefix, item := items[..n], items[n];
      assert AllPriced(prefix, rates) && AllHours(prefix);
      PriceTotal(prefix, rates);
      assert HasRate(rates, item.serviceId) && item.numberOfHours.Some?;
      assert [item][1..] == [];
      assert items == prefix + [item];
      LineSumAppend(prefix, [item], rates);
    }
  }

  /** Every line priced but some number of hours missing: the total is NaN. */
  lemma {:induction false} PriceNaN(items: seq<LineItem>, rates: map<Id, real>, k: nat)
    requires AllPriced(items, rates) && k < |items| && items[k].numberOfHours.None?
    ensures Price(items, rates) == Priced(None)
    decreases |items|
  {
    var n := |items| - 1;
    PriceAllPriced(items[..n], rates);
    if k < n {
      PriceNaN(items[..n], rates, k);
    }
  }

  /** Every line priced: the loop does not throw. */
  lemma {:induction false} PriceAllPriced(items: seq<LineItem>, rates: map<Id, real>)
    requires AllPriced(items, rates)
    ensures Price(items, rates).Priced?
    decreases |items|
  {
    if items != [] {
      PriceAllPriced(items[..|items| - 1], rates);
    }
  }

  /** The loop throws at the first line item `k` without a rate, naming
      its service identity. */
  lemma PriceFirstUnpriced(items: seq<LineItem>, rates: map<Id, real>, k: nat)
    requires k < |items| && !HasRate(rates, items[k].serviceId)
    requires forall j :: 0 <= j < k ==> HasRate(rates, items[j].serviceId)
    ensures Price(items, rates) == Unpriced(items[k].serviceId)
  {
    assert AllPriced(items[..k], rates);
    PriceAllPriced(items[..k], rates);
    assert items[..k + 1][..k] == items[..k];
    UnpricedSticky(items, rates, k + 1);
  }

  /** The loop throws if and only if some line item has no rate. */
  lemma {:induction false} PriceFails(items: seq<LineItem>, rates: map<Id, real>)
    ensures Price(items, rates).Unpriced? <==> !AllPriced(items, rates)
    decreases |items|
  {
    if items != [] {
      var n := |items| - 1;
      PriceFails(items[..n], rates);
      if Price(items[..n], rates).Unpriced? {
        var j :| 0 <= j < n && !HasRate(rates, items[..n][j].serviceId);
        assert !HasRate(rates, items[j].serviceId);
      } else {
        assert AllPriced(items, rates) <==> HasRate(rates, items[n].serviceId);
      }
    }
  }

  /** The `for` loop over the line items, accumulating `calculatedTotal`
      and stopping with the error at the first item without a rate. */
  method ComputeTotal(items: seq<LineItem>, rates: map<Id, real>) returns (r: PriceOutcome)
    ensures r == Price(items, rates)
  {
    var total: Option<real> := Some(0.0);
    for i := 0 to |items|
      invariant Price(items[..i], rates) == Priced(total)
    {
      var item := items[i];
      assert items[..i + 1][..i] == items[..i];
      if !HasRate(rates, item.serviceId) {
        UnpricedSticky(items, rates, i + 1);
        return Unpriced(item.serviceId);
      }
      total := AddAmount(total, LineAmount(rates[item.serviceId.value], item.numberOfHours));
    }
    assert items[..|items|] == items;
    r := Priced(total);
  }
}
