/**
 * The institution onboarding state machine: `/institution-request`,
 * `/approve-institution` and `/reject-institution` over the pending list
 * (`pending_institutions.json`) and the approved list (`institutions.json`).
 */
module Onboarding {
  import opened Wrappers
  import opened Text
  import opened Decimal
  import opened Search

  datatype PendingRequest = PendingRequest(name: string, domain: string, email: string, message: string)

  datatype Institution = Institution(name: string, domain: string, code: string)

  datatype RequestResponse = RequestMissingFields | RequestAccepted {
    function Status(): int {
      if RequestMissingFields? then 400 else 201
    }
  }

  datatype ApproveResponse = ApproveMissingDomain | NoMatchingRequest | DuplicateInstitution | Approved(code: string) {
    function Status(): int {
      match this
      case ApproveMissingDomain => 400
      case NoMatchingRequest => 404
      case DuplicateInstitution => 409
      case Approved(_) => 200
    }
  }

  datatype RejectResponse = RejectMissingDomain | Rejected {
    function Status(): int {
      if RejectMissingDomain? then 400 else 200
    }
  }

  // ---- Registrar codes ----

  const CodePrefix := "CERT-"

  /** The shape `CERT-dddd` with a four-digit number from 1000 to 9999. */
  predicate IsRegistrarCode(code: string) {
    && |code| == 9
    && code[..5] == CodePrefix
    && AllDigits(code[5..])
    && code[5] != '0'
  }

  /** `f"CERT-{random.randint(1000, 9999)}"` for the drawn number. */
  function RegistrarCode(draw: int): (code: string)
    requires 1000 <= draw <= 9999
    ensures IsRegistrarCode(code)
  {
    FourDigits(draw);
    CodePrefix + DecimalString(draw)
  }

  /** The code gives back the number it was made from, so distinct draws give distinct codes. */
  lemma RegistrarCodeRoundTrip(draw: int)
    requires 1000 <= draw <= 9999
    ensures DecimalValue(RegistrarCode(draw)[5..]) == draw
  {
    assert RegistrarCode(draw)[5..] == DecimalString(draw);
    DecimalRoundTrip(draw);
  }

  // ---- Pending requests ----

  /** `next((inst for inst in pending if inst["domain"] == domain), None)`. */
  function FirstRequestFor(pending: seq<PendingRequest>, domain: string): (r: Option<nat>)
    ensures r.Some? ==> r.value < |pending| && pending[r.value].domain == domain
    ensures r.Some? ==> forall j :: 0 <= j < r.value ==> pending[j].domain != domain
    ensures r.None? <==> forall j :: 0 <= j < |pending| ==> pending[j].domain != domain
  {
    FirstMatch(pending, (p: PendingRequest) => p.domain == domain)
  }

  /** `[inst for inst in pending if inst["domain"] != domain]`. */
  function RemoveDomain(pending: seq<PendingRequest>, domain: string): (r: seq<PendingRequest>)
    ensures |r| <= |pending|
    ensures forall k :: 0 <= k < |r| ==> r[k].domain != domain
  {
    if pending == [] then
      []
    else
      var head := if pending[0].domain != domain then [pending[0]] else [];
      head + RemoveDomain(pending[1..], domain)
  }

  /** Every request for another domain survives, as often as it occurred; none for `domain` does. */
  lemma {:induction false} RemoveDomainCounts(pending: seq<PendingRequest>, domain: string, x: PendingRequest)
    ensures multiset(RemoveDomain(pending, domain))[x] == if x.domain == domain then 0 else multiset(pending)[x]
  {
    if pending != [] {
      RemoveDomainCounts(pending[1..], domain, x);
      assert pending == [pending[0]] + pending[1..];
    }
  }

  /** The filter keeps order: it works piece by piece. */
  lemma {:induction false} RemoveDomainConcat(a: seq<PendingRequest>, b: seq<PendingRequest>, domain: string)
    ensures RemoveDomain(a + b, domain) == RemoveDomain(a, domain) + RemoveDomain(b, domain)
  {
    if a == [] {
      assert a + b == b;
    } else {
      assert (a + b)[1..] == a[1..] + b;
      assert (a + b)[0] == a[0];
      RemoveDomainConcat(a[1..], b, domain);
      var head := if a[0].domain != domain then [a[0]] else [];
      assert RemoveDomain(a, domain) == head + RemoveDomain(a[1..], domain);
      assert RemoveDomain(a + b, domain) == head + RemoveDomain(a[1..] + b, domain);
    }
  }

  /** With no request for `domain`, nothing is removed. */
  lemma {:induction false} RemoveDomainNoMatch(pending: seq<PendingRequest>, domain: string)
    requires forall k :: 0 <= k < |pending| ==> pending[k].domain != domain
    ensures RemoveDomain(pending, domain) == pending
  {
    if pending != [] {
      RemoveDomainNoMatch(pending[1..], domain);
      assert pending == [pending[0]] + pending[1..];
    }
  }

  /** Rejecting (or approving) the same domain twice removes nothing more. */
  lemma RemoveDomainIdempotent(pending: seq<PendingRequest>, domain: string)
    ensures RemoveDomain(RemoveDomain(pending, domain), domain) == RemoveDomain(pending, domain)
  {
    RemoveDomainNoMatch(RemoveDomain(pending, domain), domain);
  }

  // ---- Approved institutions ----

  /**
   * The duplicate test of `/approve-institution`: equal domains ignoring case,
   * or equal names ignoring case and surrounding whitespace.
   */
  predicate SameInstitution(inst: Institution, name: string, domain: string) {
    Lower(inst.domain) == Lower(domain) || Lower(Strip(inst.name)) == Lower(Strip(name))
  }

  predicate Duplicate(institutions: seq<Institution>, name: string, domain: string) {
    exists k :: 0 <= k < |institutions| && SameInstitution(institutions[k], name, domain)
  }

  /** No two institutions share a domain or a name, ignoring case (and whitespace around names). */
  predicate UniqueInstitutions(institutions: seq<Institution>) {
    forall i, j :: 0 <= i < j < |institutions| ==>
      !SameInstitution(institutions[i], institutions[j].name, institutions[j].domain)
  }

  /** Appending an institution that passed the duplicate test keeps the list unique. */
  lemma ApprovalKeepsUnique(institutions: seq<Institution>, added: Institution)
    requires UniqueInstitutions(institutions)
    requires !Duplicate(institutions, added.name, added.domain)
    ensures UniqueInstitutions(institutions + [added])
  {
  }

  /** In a unique list every exact domain names at most one institution. */
  lemma UniqueDomains(institutions: seq<Institution>, i: int, j: int)
    requires UniqueInstitutions(institutions)
    requires 0 <= i < |institutions| && 0 <= j < |institutions|
    requires institutions[i].domain == institutions[j].domain
    ensures i == j
  {
  }

  /** The early-return scan over `institutions` in `/approve-institution`. */
  method HasDuplicate(institutions: seq<Institution>, candidate: PendingRequest) returns (dup: bool)
    ensures dup <==> Duplicate(institutions, candidate.name, candidate.domain)
  {
    var i := 0;
    while i < |institutions|
      invariant 0 <= i <= |institutions|
      invariant forall k :: 0 <= k < i ==> !SameInstitution(institutions[k], candidate.name, candidate.domain)
    {
      if SameInstitution(institutions[i], candidate.name, candidate.domain) {
        assert Duplicate(institutions, candidate.name, candidate.domain);
        return true;
      }
      i := i + 1;
    }
    return false;
  }

  class InstitutionRegistry {
    var pending: seq<PendingRequest>
    var institutions: seq<Institution>

    constructor ()
      ensures pending == [] && institutions == []
    {
      pending := [];
      institutions := [];
    }

    /** `/institution-request`: appended as given, without any duplicate check. */
    method RequestInstitution(name: Option<string>, domain: Option<string>, email: Option<string>, message: Option<string>)
      returns (r: RequestResponse)
      modifies this`pending
      ensures !(Given(name) && Given(domain) && Given(email)) ==>
        r == RequestMissingFields && pending == old(pending)
      ensures Given(name) && Given(domain) && Given(email) ==>
        && r == RequestAccepted
        && pending == old(pending) + [PendingRequest(name.value, domain.value, email.value, OrElse(message, ""))]
    {
      if !Given(name) || !Given(domain) || !Given(email) {
        return RequestMissingFields;
      }
      var entry := PendingRequest(name.value, domain.value, email.value, OrElse(message, ""));
      pending := pending + [entry];
      return RequestAccepted;
    }

    /**
     * `/approve-institution`: the first pending request with exactly this
     * domain becomes an institution with a fresh `CERT-dddd` code, unless an
     * approved institution already has its domain or name; then every pending
     * request with that domain is dropped. `draw` is the number
     * `random.randint(1000, 9999)` produced.
     */
    method ApproveInstitution(domain: Option<string>) returns (r: ApproveResponse, ghost draw: int)
      modifies this
      ensures !Given(domain) ==>
        r == ApproveMissingDomain && pending == old(pending) && institutions == old(institutions)
      ensures Given(domain) && FirstRequestFor(old(pending), domain.value).None? ==>
        r == NoMatchingRequest && pending == old(pending) && institutions == old(institutions)
      ensures Given(domain) && FirstRequestFor(old(pending), domain.value).Some? ==>
        var matched := old(pending)[FirstRequestFor(old(pending), domain.value).value];
        && (Duplicate(old(institutions), matched.name, matched.domain) ==>
              r == DuplicateInstitution && pending == old(pending) && institutions == old(institutions))
        && (!Duplicate(old(institutions), matched.name, matched.domain) ==>
              && 1000 <= draw <= 9999
              && r == Approved(RegistrarCode(draw))
              && institutions == old(institutions) + [Institution(matched.name, matched.domain, RegistrarCode(draw))]
              && pending == RemoveDomain(old(pending), domain.value))
      ensures r.Approved? ==> IsRegistrarCode(r.code)
      ensures UniqueInstitutions(old(institutions)) ==> UniqueInstitutions(institutions)
    {
      draw := 0;
      if !Given(domain) {
        return ApproveMissingDomain, draw;
      }
      var d := domain.value;
      var found := FirstRequestFor(pending, d);
      if found.None? {
        return NoMatchingRequest, draw;
      }
      var matched := pending[found.value];
      var dup := HasDuplicate(institutions, matched);
      if dup {
        return DuplicateInstitution, draw;
      }
      var n: int :| 1000 <= n <= 9999;
      draw := n;
      var code := RegistrarCode(n);
      var added := Institution(matched.name, matched.domain, code);
      if UniqueInstitutions(institutions) {
        ApprovalKeepsUnique(institutions, added);
      }
      institutions := institutions + [added];
      pending := RemoveDomain(pending, d);
      return Approved(code), draw;
    }

    /** `/reject-institution`: drops every pending request with exactly this domain, matched or not. */
    method RejectInstitution(domain: Option<string>) returns (r: RejectResponse)
      modifies this`pending
      ensures !Given(domain) ==> r == RejectMissingDomain && pending == old(pending)
      ensures Given(domain) ==> r == Rejected && pending == RemoveDomain(old(pending), domain.value)
    {
      if !Given(domain) {
        return RejectMissingDomain;
      }
      pending := RemoveDomain(pending, domain.value);
      return Rejected;
    }
  }
}
