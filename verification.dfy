/**
 * The certificate routes of the backend: `/submit`, `/verify`, `/ask-ai`
 * and `/verifier-history`. The service owns the two audit logs and talks
 * to the ledger; the AI collaborator's answer and the clock are supplied.
 */
module Verification {
  import opened Wrappers
  import opened Text
  import opened Logs
  import opened History
  import opened Ledger

  datatype SubmitResponse =
    | SubmitMissingId
    | AlreadyOnChain
    | Submitted(txHash: string)
    | SubmitLedgerError
    | SubmitQueryError
  {
    function Status(): int {
      match this
      case SubmitMissingId => 400
      case AlreadyOnChain => 200
      case Submitted(_) => 200
      case SubmitLedgerError => 500
      case SubmitQueryError => 500
    }
  }

  datatype VerifyResponse = VerifyMissingId | CertificateVerified | CertificateNotFound | VerifyQueryError {
    function Status(): int {
      match this
      case VerifyMissingId => 400
      case CertificateVerified => 200
      case CertificateNotFound => 404
      case VerifyQueryError => 500
    }
  }

  datatype AskResponse = AskMissingFields | Answer(text: string) {
    function Status(): int {
      if AskMissingFields? then 400 else 200
    }
  }

  datatype HistoryResponse = HistoryMissingUser | Rows(rows: seq<HistoryRow>) {
    function Status(): int {
      if HistoryMissingUser? then 400 else 200
    }
  }

  const Guest := "guest"
  const Anonymous := "anonymous"

  /** `username.lower() != "guest"` is false. */
  predicate IsGuest(username: string) {
    Lower(username) == Guest
  }

  class CertificateService {
    var verifiedLogs: seq<VerificationLogEntry>
    var questionLogs: seq<QuestionLogEntry>
    const ledger: Ledger

    constructor (ledger: Ledger)
      ensures this.ledger == ledger && verifiedLogs == [] && questionLogs == []
    {
      this.ledger := ledger;
      verifiedLogs := [];
      questionLogs := [];
    }

    /**
     * `/submit`: one existence query, then a submission only when the
     * ledger does not know the identifier yet. A failed query is not
     * caught: the request ends with a 500 before anything is sent.
     */
    method SubmitCertificate(certificateId: Option<string>) returns (r: SubmitResponse)
      modifies ledger
      ensures !Given(certificateId) ==>
        && r == SubmitMissingId
        && ledger.queries == old(ledger.queries)
        && ledger.submissions == old(ledger.submissions)
        && ledger.onChain == old(ledger.onChain)
      ensures Given(certificateId) ==> r != SubmitMissingId && ledger.queries == old(ledger.queries) + [certificateId.value]
      ensures r == SubmitQueryError || r == AlreadyOnChain ==>
        ledger.submissions == old(ledger.submissions) && ledger.onChain == old(ledger.onChain)
      ensures Given(certificateId) && certificateId.value in old(ledger.onChain) ==>
        r == AlreadyOnChain || r == SubmitQueryError
      ensures r == AlreadyOnChain ==> Given(certificateId) && certificateId.value in old(ledger.onChain)
      ensures Given(certificateId) && certificateId.value !in old(ledger.onChain) && r != SubmitQueryError ==>
        && ledger.submissions == old(ledger.submissions) + [certificateId.value]
        && (r.Submitted? || r == SubmitLedgerError)
        && (r.Submitted? ==> ledger.onChain == old(ledger.onChain) + {certificateId.value})
        && (r == SubmitLedgerError ==>
              ledger.onChain == old(ledger.onChain) || ledger.onChain == old(ledger.onChain) + {certificateId.value})
    {
      if !Given(certificateId) {
        return SubmitMissingId;
      }
      var id := certificateId.value;
      var alreadySubmitted := ledger.IsSubmitted(id);
      match alreadySubmitted
      case LookupFailure => return SubmitQueryError;
      case Known(present) =>
        if present {
          return AlreadyOnChain;
        }
        var receipt := ledger.Submit(id);
        match receipt
        case TxHash(hash) => r := Submitted(hash);
        case LedgerFailure => r := SubmitLedgerError;
    }

    /**
     * `/verify`: the log is consulted first; on a miss the ledger is asked;
     * a ledger hit is logged for every user except the guest. A failed
     * ledger query is not caught: a 500 with no log row.
     */
    method VerifyCertificate(certificateId: Option<string>, username: Option<string>, clock: string)
      returns (r: VerifyResponse)
      modifies this`verifiedLogs, ledger`queries
      ensures !Given(certificateId) ==>
        r == VerifyMissingId && verifiedLogs == old(verifiedLogs) && ledger.queries == old(ledger.queries)
      ensures Given(certificateId) && CacheHit(old(verifiedLogs), OrElse(username, Guest), certificateId.value) ==>
        r == CertificateVerified && verifiedLogs == old(verifiedLogs) && ledger.queries == old(ledger.queries)
      ensures Given(certificateId) && !CacheHit(old(verifiedLogs), OrElse(username, Guest), certificateId.value) ==>
        ledger.queries == old(ledger.queries) + [certificateId.value]
      ensures r == VerifyQueryError ==>
        && Given(certificateId) && !CacheHit(old(verifiedLogs), OrElse(username, Guest), certificateId.value)
        && verifiedLogs == old(verifiedLogs)
      ensures Given(certificateId) && !CacheHit(old(verifiedLogs), OrElse(username, Guest), certificateId.value)
              && certificateId.value !in ledger.onChain && r != VerifyQueryError ==>
        r == CertificateNotFound && verifiedLogs == old(verifiedLogs)
      ensures Given(certificateId) && !CacheHit(old(verifiedLogs), OrElse(username, Guest), certificateId.value)
              && certificateId.value in ledger.onChain && r != VerifyQueryError ==>
        && r == CertificateVerified
        && verifiedLogs == old(verifiedLogs) +
             if IsGuest(OrElse(username, Guest)) then []
             else [VerificationLogEntry(OrElse(username, Guest), certificateId.value, Timestamp(clock))]
      ensures IsGuest(OrElse(username, Guest)) ==> verifiedLogs == old(verifiedLogs)
      ensures r == CertificateVerified ==>
        Given(certificateId) &&
        (CacheHit(old(verifiedLogs), OrElse(username, Guest), certificateId.value) || certificateId.value in ledger.onChain)
      ensures r == CertificateNotFound ==> Given(certificateId) && certificateId.value !in ledger.onChain
    {
      var user := OrElse(username, Guest);
      if !Given(certificateId) {
        return VerifyMissingId;
      }
      var id := certificateId.value;
      var cached := CacheHit(verifiedLogs, user, id);
      if cached {
        return CertificateVerified;
      }
      var onLedger := ledger.IsSubmitted(id);
      match onLedger
      case LookupFailure => return VerifyQueryError;
      case Known(present) =>
        if !present {
          return CertificateNotFound;
        }
        if Lower(user) != Guest {
          verifiedLogs := verifiedLogs + [VerificationLogEntry(user, id, Timestamp(clock))];
        }
        return CertificateVerified;
    }

    /**
     * `/ask-ai`: the collaborator's `answer` is logged unchanged and returned.
     * `lang` is `None` when the field is absent and `Some(None)` when it is
     * JSON null; only an absent field defaults to `"en"`, a null is logged as NULL.
     */
    method AskAboutCertificate(certificateId: Option<string>, question: Option<string>, lang: Option<Option<string>>,
                               username: Option<string>, answer: string, clock: string)
      returns (r: AskResponse)
      modifies this`questionLogs
      ensures !(Given(certificateId) && Given(question)) ==>
        r == AskMissingFields && questionLogs == old(questionLogs)
      ensures Given(certificateId) && Given(question) ==>
        && r == Answer(answer)
        && questionLogs == old(questionLogs) + [QuestionLogEntry(
             OrElse(username, Anonymous), certificateId.value, question.value,
             lang.GetOr(Some("en")), answer, Timestamp(clock))]
      ensures Given(certificateId) && Given(question) && lang.None? ==> questionLogs[|questionLogs| - 1].lang == Some("en")
      ensures Given(certificateId) && Given(question) && lang.Some? ==> questionLogs[|questionLogs| - 1].lang == lang.value
    {
      if !Given(certificateId) || !Given(question) {
        return AskMissingFields;
      }
      var entry := QuestionLogEntry(
        OrElse(username, Anonymous), certificateId.value, question.value, lang.GetOr(Some("en")), answer, Timestamp(clock));
      questionLogs := questionLogs + [entry];
      return Answer(answer);
    }

    /** `/verifier-history`: the merged, newest-first history of one user. */
    method VerifierHistory(username: Option<string>) returns (r: HistoryResponse)
      ensures !Given(username) ==> r == HistoryMissingUser
      ensures Given(username) ==> r.Rows? && NonIncreasing(r.rows)
      ensures Given(username) ==> r == Rows(UserHistory(verifiedLogs, questionLogs, username.value))
    {
      if !Given(username) {
        return HistoryMissingUser;
      }
      return Rows(UserHistory(verifiedLogs, questionLogs, username.value));
    }
  }
}
