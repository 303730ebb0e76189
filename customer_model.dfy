/** The customer schema: required and trimmed name, phone and address
    fields, and an email that is trimmed, lower-cased, matched against
    `^\S+@\S+\.\S+$` and unique over the collection. */
module CustomerModel {
  import opened Common
  import opened Text

  datatype Customer = Customer(
    id: Id,
    firstName: string,
    lastName: string,
    email: string,
    phoneNumber: string,
    address: string)

  /** `\S+`: one or more characters, none of them white space. */
  predicate Word(s: string)
  {
    |s| > 0 && NoSpace(s)
  }

  /** The email pattern `^\S+@\S+\.\S+$` by positions: no white space
      anywhere, an `@` with at least one character before it, and a `.`
      with at least one character between it and that `@` and at least one
      after it. */
  predicate EmailPattern(s: string)
  {
    NoSpace(s) &&
    exists i, j :: 0 <= i < |s| && 0 <= j < |s| &&
      1 <= i && i + 1 < j < |s| - 1 && s[i] == '@' && s[j] == '.'
  }

  /** Joining three `\S+` words with `@` and `.` gives a string the
      pattern accepts. */
  lemma EmailOfParts(a: string, b: string, c: string)
    requires Word(a) && Word(b) && Word(c)
    ensures EmailPattern(a + "@" + b + "." + c)
  {
    var s := a + "@" + b + "." + c;
    assert s[|a|] == '@';
    assert s[|a| + 1 + |b|] == '.';
    forall k | 0 <= k < |s| ensures !IsSpace(s[k]) {
      if k < |a| {
        assert s[k] == a[k];
      } else if k == |a| {
      } else if k < |a| + 1 + |b| {
        assert s[k] == b[k - |a| - 1];
      } else if k == |a| + 1 + |b| {
      } else {
        assert s[k] == c[k - |a| - 2 - |b|];
      }
    }
  }

  /** Every string the pattern accepts is three `\S+` words joined by `@`
      and `.`: the positional predicate is exactly the regular expression. */
  lemma PartsOfEmail(s: string) returns (a: string, b: string, c: string)
    requires EmailPattern(s)
    ensures Word(a) && Word(b) && Word(c)
    ensures s == a + "@" + b + "." + c
  {
    var i, j :| 0 <= i < |s| && 0 <= j < |s| &&
      1 <= i && i + 1 < j < |s| - 1 && s[i] == '@' && s[j] == '.';
    a, b, c := s[..i], s[i + 1..j], s[j + 1..];
    assert s == a + [s[i]] + b + [s[j]] + c;
  }

  /** The email setters: trim, then lower-case. */
  function NormalizeEmail(e: string): (r: string)
    ensures |r| <= |e|
    ensures Trimmed(r) && LowerCase(r)
    ensures r == [] <==> AllSpace(e)
  {
    var t := Trim(e);
    LowerKeepsTrimmed(t);
    Lower(t)
  }

  /** A trimmed, lower-case email is its own normal form. */
  lemma NormalFormFixed(e: string)
    requires Trimmed(e) && LowerCase(e)
    ensures NormalizeEmail(e) == e
  {
    TrimFixedPoint(e);
    assert Lower(e) == e;
  }

  /** Normalizing an already normalized email changes nothing. */
  lemma NormalizeIdempotent(e: string)
    ensures NormalizeEmail(NormalizeEmail(e)) == NormalizeEmail(e)
  {
    var t := Trim(e);
    TrimLowerCommute(t);
    TrimIdempotent(e);
    LowerIdempotent(t);
  }

  /** What the schema leaves in a stored customer: every field present
      (non-empty) and trimmed, the email in normal form (trimmed and lower
      case, see NormalFormFixed) and matching the pattern. */
  predicate ValidCustomer(c: Customer)
  {
    && c.firstName != [] && Trimmed(c.firstName)
    && c.lastName != [] && Trimmed(c.lastName)
    && c.phoneNumber != [] && Trimmed(c.phoneNumber)
    && c.address != [] && Trimmed(c.address)
    && c.email != [] && Trimmed(c.email) && LowerCase(c.email)
    && EmailPattern(c.email)
  }

  /** The collection-level constraints: all records valid, identities
      distinct and below the next identity to be issued, and the unique
      index on `email`. */
  predicate CustomersInvariant(customers: seq<Customer>, nextId: nat)
  {
    && (forall k :: 0 <= k < |customers| ==>
          ValidCustomer(customers[k]) && customers[k].id < nextId)
    && (forall k, l :: 0 <= k < l < |customers| ==>
          customers[k].id != customers[l].id && customers[k].email != customers[l].email)
  }

  /** Raising the next identity keeps the constraints. */
  lemma CustomersInvariantMonotone(customers: seq<Customer>, nextId: nat, nextId': nat)
    requires CustomersInvariant(customers, nextId) && nextId <= nextId'
    ensures CustomersInvariant(customers, nextId')
  {
  }
}
