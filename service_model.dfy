/** The service schema: a name from a fixed list (stored trimmed) and a
    non-negative hourly rate. The schema puts no uniqueness constraint on
    the name. */
module ServiceModel {
  import opened Common
  import opened Text

  /** The `ServiceName` union and the schema's `enum` values. */
  datatype ServiceName = Plumbing | Electrical | Masonry | CarpentryWorks | Others

  function NameString(n: ServiceName): (s: string)
  {
    match n
    case Plumbing => "Plumbing"
    case Electrical => "Electrical"
    case Masonry => "Masonry"
    case CarpentryWorks => "Carpentry Works"
    case Others => "Others"
  }

  /** The enum check on a (trimmed) name: `Some(n)` exactly when the string
      is the spelling of `n`. */
  function ParseName(s: string): (r: Option<ServiceName>)
    ensures r.Some? ==> NameString(r.value) == s
    ensures r.None? ==> forall n: ServiceName :: NameString(n) != s
  {
    if s == "Plumbing" then Some(Plumbing)
    else if s == "Electrical" then Some(Electrical)
    else if s == "Masonry" then Some(Masonry)
    else if s == "Carpentry Works" then Some(CarpentryWorks)
    else if s == "Others" then Some(Others)
    else None
  }

  lemma ParseNameString(n: ServiceName)
    ensures ParseName(NameString(n)) == Some(n)
  {
  }

  /** Every enum spelling is non-empty and already trimmed, so the
      `required` check never fails for a name that passes the enum check,
      and trimming a stored name leaves it as it is. */
  lemma NameStringTrimmed(n: ServiceName)
    ensures NameString(n) != [] && Trim(NameString(n)) == NameString(n)
  {
    var s := NameString(n);
    assert !IsSpace(s[0]) && !IsSpace(s[|s| - 1]) by {
      match n
      case Plumbing =>
      case Electrical =>
      case Masonry =>
      case CarpentryWorks =>
      case Others =>
    }
    TrimFixedPoint(s);
  }

  datatype Service = Service(id: Id, name: ServiceName, hourlyRate: real)

  /** The save-time checks on a service document whose name setter has run:
      `required` and `enum` on the name, `required` and `min: 0` on the rate. */
  predicate ServiceDocumentValid(name: string, hourlyRate: real)
  {
    name != [] && ParseName(name).Some? && hourlyRate >= 0.0
  }

  predicate IdsDistinct(services: seq<Service>)
  {
    forall k, l :: 0 <= k < l < |services| ==> services[k].id != services[l].id
  }

  /** Not a schema constraint: one record per name holds only as long as
      every write goes through the upsert route. */
  predicate NamesDistinct(services: seq<Service>)
  {
    forall k, l :: 0 <= k < l < |services| ==> services[k].name != services[l].name
  }

  /** The collection-level constraints the schema and the identity
      generator keep. */
  predicate ServicesInvariant(services: seq<Service>, nextId: nat)
  {
    && (forall k :: 0 <= k < |services| ==>
          services[k].hourlyRate >= 0.0 && services[k].id < nextId)
    && IdsDistinct(services)
  }

  /** The schema alone admits two records with the same name. */
  lemma SchemaAllowsDuplicateNames()
    ensures var s := [Service(0, Plumbing, 100.0), Service(1, Plumbing, 150.0)];
            ServicesInvariant(s, 2) && !NamesDistinct(s)
  {
    var s := [Service(0, Plumbing, 100.0), Service(1, Plumbing, 150.0)];
    assert s[0].name == s[1].name;
  }

  /** Raising the next identity keeps the constraints. */
  lemma ServicesInvariantMonotone(services: seq<Service>, nextId: nat, nextId': nat)
    requires ServicesInvariant(services, nextId) && nextId <= nextId'
    ensures ServicesInvariant(services, nextId')
  {
  }
}
