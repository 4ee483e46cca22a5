/**
 * Call sequences across the routes, proved from the routes' contracts
 * and the functions they are stated in: resubmission, cache reuse, and
 * the onboarding walk-through.
 */
module Scenarios {
  import opened Wrappers
  import opened Text
  import opened Logs
  import opened Ledger
  import opened Verification
  import opened Onboarding
  import opened Registration

  /**
   * Submitting the same new id twice sends no second transaction once the
   * first succeeded. After a failed first submission the existence check
   * runs again: a transaction that was mined anyway is recognised, and
   * only otherwise is the id sent a second time. Either call can still end
   * in a 500 when its existence query fails.
   */
  method SubmitTwice(service: CertificateService, id: string) returns (first: SubmitResponse, second: SubmitResponse)
    requires id != "" && id !in service.ledger.onChain
    modifies service.ledger
    ensures first.Submitted? ==>
      && (second == AlreadyOnChain || second == SubmitQueryError)
      && service.ledger.submissions == old(service.ledger.submissions) + [id]
    ensures first == SubmitLedgerError ==>
      || second == SubmitQueryError
      || (second == AlreadyOnChain && service.ledger.submissions == old(service.ledger.submissions) + [id])
      || service.ledger.submissions == old(service.ledger.submissions) + [id, id]
    ensures second.Submitted? ==> id in service.ledger.onChain
  {
    first := service.SubmitCertificate(Some(id));
    second := service.SubmitCertificate(Some(id));
  }

  /** A named user's second verification of a certificate is answered from the log, without a ledger query. */
  method VerifyTwice(service: CertificateService, id: string, username: string, clock1: string, clock2: string)
    returns (first: VerifyResponse, second: VerifyResponse, ghost mid: seq<string>)
    requires id != "" && username != "" && !IsGuest(username)
    modifies service, service.ledger
    ensures first == CertificateVerified ==> second == CertificateVerified
    ensures mid == old(service.ledger.queries) +
      if CacheHit(old(service.verifiedLogs), username, id) then [] else [id]
    ensures first == CertificateVerified ==> service.ledger.queries == mid
    ensures first == CertificateVerified ==>
      exists more :: |more| <= 1 && service.ledger.queries == old(service.ledger.queries) + more
  {
    ghost var queries0 := service.ledger.queries;
    first := service.VerifyCertificate(Some(id), Some(username), clock1);
    ghost var queries1 := service.ledger.queries;
    mid := queries1;
    if first == CertificateVerified {
      if service.verifiedLogs != old(service.verifiedLogs) {
        AppendedRowHits(old(service.verifiedLogs), VerificationLogEntry(username, id, Timestamp(clock1)), username);
      }
      assert CacheHit(service.verifiedLogs, username, id);
    }
    second := service.VerifyCertificate(Some(id), Some(username), clock2);
    if first == CertificateVerified {
      assert service.ledger.queries == queries1;
      assert queries1 == queries0 || queries1 == queries0 + [id];
      assert queries0 == queries0 + [];
    }
  }

  /** A request for `acme.edu` and its approval with a `CERT-dddd` code. */
  method RequestAndApprove() returns (registry: InstitutionRegistry, code: string)
    ensures fresh(registry)
    ensures IsRegistrarCode(code)
    ensures registry.institutions == [Institution("Acme U", "acme.edu", code)]
    ensures registry.pending == []
  {
    registry := new InstitutionRegistry();
    var accepted := registry.RequestInstitution(Some("Acme U"), Some("acme.edu"), Some("reg@acme.edu"), None);
    assert registry.pending == [PendingRequest("Acme U", "acme.edu", "reg@acme.edu", "")];
    var approved, draw := registry.ApproveInstitution(Some("acme.edu"));
    assert approved.Approved?;
    code := approved.code;
  }

  /**
   * Against an approved list whose first `acme.edu` entry carries `code`,
   * that code admits the registrar; a wrong code is refused (403).
   */
  method RegisterRegistrars(institutions: seq<Institution>, code: string) returns (granted: RegisterResponse, refused: RegisterResponse)
    requires IsRegistrarCode(code)
    requires |institutions| > 0 && institutions[0].domain == "acme.edu" && institutions[0].code == code
    ensures granted == Registered(RegistrarRole)
    ensures refused == RoleRejected(InvalidRegistrarCode) && refused.gate.Status() == 403
  {
    var directory := new UserDirectory();
    assert EndsWith("reg@acme.edu", "@" + "acme.edu");
    assert FirstInstitutionFor(institutions, "acme.edu") == Some(0);
    granted := directory.RegisterUser(Some("ayse"), Some("pw"), Some(RegistrarRole), Some("word"),
                                      Some("reg@acme.edu"), Some("acme.edu"), Some(code), institutions);
    assert "CERT-0000"[5] == '0';
    refused := directory.RegisterUser(Some("mehmet"), Some("pw"), Some(RegistrarRole), Some("word"),
                                      Some("reg@acme.edu"), Some("acme.edu"), Some("CERT-0000"), institutions);
  }

  /** `ACME.edu` and `acme.edu` are the same domain ignoring case. */
  lemma SameDomainInOtherCase()
    ensures Lower("ACME.edu") == Lower("acme.edu")
  {
  }

  /**
   * Once an institution is approved, a new request whose domain equals its
   * domain ignoring case can never be approved, whatever its name (409).
   */
  method RequestSameDomainAgain(registry: InstitutionRegistry, name: string, domain: string, email: string)
    returns (resent: RequestResponse, again: ApproveResponse)
    requires name != "" && domain != "" && email != ""
    requires exists k :: 0 <= k < |registry.institutions| && Lower(registry.institutions[k].domain) == Lower(domain)
    modifies registry
    ensures resent == RequestAccepted && resent.Status() == 201
    ensures again == DuplicateInstitution && again.Status() == 409
    ensures registry.institutions == old(registry.institutions)
  {
    resent := registry.RequestInstitution(Some(name), Some(domain), Some(email), None);
    ghost var k :| 0 <= k < |registry.institutions| && Lower(registry.institutions[k].domain) == Lower(domain);
    ghost var first := FirstRequestFor(registry.pending, domain);
    assert registry.pending[|registry.pending| - 1].domain == domain;
    assert SameInstitution(registry.institutions[k], registry.pending[first.value].name, domain);
    ghost var draw;
    again, draw := registry.ApproveInstitution(Some(domain));
  }

  /** The whole walk-through: request, approval, registrar sign-up, duplicate refused. */
  method OnboardingWalkthrough() returns (code: string, granted: RegisterResponse, refused: RegisterResponse,
                                         again: ApproveResponse)
    ensures IsRegistrarCode(code)
    ensures granted == Registered(RegistrarRole)
    ensures refused == RoleRejected(InvalidRegistrarCode)
    ensures again == DuplicateInstitution
  {
    var registry;
    registry, code := RequestAndApprove();
    granted, refused := RegisterRegistrars(registry.institutions, code);
    SameDomainInOtherCase();
    assert Lower(registry.institutions[0].domain) == Lower("ACME.edu");
    var resent;
    resent, again := RequestSameDomainAgain(registry, "Acme University", "ACME.edu", "it@acme.edu");
  }
}
