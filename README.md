# Certificate verification backend: a Dafny model

This project models the request-handling logic of a Flask backend that registers
certificates on a blockchain ledger, verifies them for third parties, and gates
which institutions may issue them behind an approval step. The Flask, SQLite,
JSON-file, web3 and OpenAI calls are abstracted away. What remains is:

- **the ledger** (`Ledger.Ledger`): a set of identifiers on the chain. It records
  every `is_certificate_submitted` and `submit_certificate` call, so a contract
  can say which calls a route made;
- **the certificate service** (`Verification.CertificateService`): the
  `verified_logs` and `questions_logs` tables as sequences, with the routes
  `/submit`, `/verify`, `/ask-ai` and `/verifier-history`;
- **the history view** (`History`): pure filters, the concatenation and a stable
  insertion sort by timestamp string, newest first;
- **the onboarding state machine** (`Onboarding.InstitutionRegistry`): the pending
  list and the approved list as sequences, with `/institution-request`,
  `/approve-institution` and `/reject-institution`;
- **the registrar gate of `/register`** (`Registration`): the role check against
  the approved institutions and the username check, over a `users` sequence;
- **call sequences** (`Scenarios`): resubmission, verifying twice from the cache,
  and the request → approve → register walk-through, which registers against the
  list the approval produced. Each is proved from the routes' contracts and the
  functions they are stated in.

Conventions:
- A JSON field that may be missing or null is an `Option<string>`.
- Python's `not x` is `!Given(x)`: the field is absent, or it is the empty string.
- `x or default` is `OrElse(x, default)`.
- `lang` is an `Option<Option<string>>`: `None` when the field is absent, `Some(None)` when it is
  JSON null. `data.get("lang", "en")` defaults only when the field is absent, so the logged value
  is `lang.GetOr(Some("en"))`, and a null is stored as NULL.
- The clock is a supplied string `clock`; the stored timestamp is `Timestamp(clock)`, the reading followed by `Z`.
- The answer of the AI collaborator is a supplied string `answer`.
- The random draw of `random.randint(1000, 9999)` is a nondeterministic choice inside
  `ApproveInstitution`. It is exposed as the ghost out-parameter `draw`.
- `.lower()`, SQLite `LOWER()` and `.strip()` are modelled on ASCII (`Text`).
- String order is Python's code-point lexicographic order (`Ordering.StringLe`).

Where the description of the system and the code differ, the model follows the code:
- History rows carry no separate "kind" tag. A verification row and a question row
  differ only in their fields, which the model shows as two constructors of `HistoryRow`.
- Every history row carries the username the caller asked for, not the one stored
  in the log.
- A log-write failure in `/verify` is a hard error in the code. The model leaves
  storage failures out (see below).

## Model

| member | source | states |
|---|---|---|
| Text.LowerChar | app.py:113 | ASCII lower-casing of one character: upper-case letters move up by 32 in code point, everything else is kept; the result is never upper-case |
| Text.Lower | app.py:113 | `LOWER()` / `.lower()` keeps the length and lower-cases each character at its position |
| Text.LowerIdempotent | app.py:423 | lower-casing twice is lower-casing once |
| Text.StripStart | app.py:423 | the result is a suffix of the input, does not start with whitespace, and everything dropped is whitespace |
| Text.StripEnd | app.py:423 | the result is a prefix of the input, does not end with whitespace, and everything dropped is whitespace |
| Text.Strip | app.py:423 | `.strip()` neither starts nor ends with whitespace |
| Text.StripIsTrimmedSlice | app.py:423 | `.strip()` returns a slice of its input and drops only whitespace on both sides |
| Text.StripIdempotent | app.py:423 | stripping twice is stripping once |
| Text.EndsWithIff | app.py:214 | `email.endswith(suffix)` holds exactly when the email is some text followed by the suffix |
| Ordering.StringLeReflexive | app.py:349 | Python string comparison is reflexive |
| Ordering.StringLeTotal | app.py:349 | any two timestamp strings are comparable |
| Ordering.StringLeAntisymmetric | app.py:349 | two strings that are each `<=` the other are equal |
| Ordering.StringLeTransitive | app.py:349 | string comparison is transitive, so sorting by it is well defined |
| Decimal.DigitChar | app.py:428 | a digit value becomes the digit character that denotes it |
| Decimal.DecimalString | app.py:428 | the f-string of a number is a non-empty run of digits with no leading zero, one digit exactly for numbers below 10 |
| Decimal.DecimalRoundTrip | app.py:428 | reading the decimal text of a number gives the number back |
| Decimal.FourDigits | app.py:428 | every number from 1000 to 9999 is written with exactly four digits |
| Ledger.Ledger.IsSubmitted | blockchain_utils.py:34-35 | the existence query is recorded as one query; it either fails (the RPC raises) or answers membership in the on-chain set |
| Ledger.Ledger.Submit | blockchain_utils.py:21-32 | a submission is recorded; on success the id is on the chain; a call that raises may or may not have put it there (the node can accept the transaction before the client fails) |
| Logs.CacheHitPersists | app.py:111-122 | the verification cache is never invalidated: appending rows keeps every hit |
| Logs.AppendedRowHits | app.py:135-138 | the row written after a ledger hit answers later cache lookups for every case-spelling of that user |
| History.VerifiedRows | app.py:312-326 | the verification rows of a user are at most as many as the log rows; each is a verification row carrying the requested username |
| History.QuestionRows | app.py:329-346 | the question rows of a user are at most as many as the log rows; each is a question row carrying the requested username |
| History.AllAtMostByMultiset | app.py:349 | two row lists with the same multiset of rows have the same upper bounds on timestamps |
| History.InsertDesc | app.py:349 | inserting into a newest-first list keeps it newest-first and adds exactly that row |
| History.ConsNonIncreasing | app.py:349 | a row no older than every row of a newest-first list can be put in front and the list stays newest-first |
| History.InsertBehindHead | app.py:349 | an inserted row that is older than the head goes behind it, and the list stays newest-first with exactly that row added |
| History.SortDesc | app.py:349 | `sort(key=timestamp, reverse=True)` returns rows in non-increasing timestamp order and is a permutation of its input |
| History.UserHistory | app.py:348-349 | the history is newest-first and holds exactly the user's verification rows and question rows, each as often as in the logs |
| History.VerifiedRowsMembers | app.py:312-326 | a verification row is in the user's rows exactly when a log row of that user (any case) produced it |
| History.QuestionRowsMembers | app.py:329-346 | a question row is in the user's rows exactly when a question log row of that user (any case) produced it |
| History.VerifiedRowsAppend | app.py:319-326 | the verification rows of a concatenated log are the rows of each part, in order |
| History.QuestionRowsAppend | app.py:336-346 | the question rows of a concatenated log are the rows of each part, in order |
| History.HistoryMembers | app.py:312-349 | a row is in the merged history exactly when some verification or question log row of that user produced it |
| History.HistoryAfterVerification | app.py:312-349 | one new verification log row adds exactly one row to the history of its user and changes no other user's history |
| History.WithTimestampCons | app.py:349 | selecting the rows with a given timestamp from a list with one more row in front adds that row exactly when its timestamp matches |
| History.InsertDescStable | app.py:349 | insertion keeps the order of rows with equal timestamps, the inserted row first |
| History.SortDescStable | app.py:349 | the sort is stable: for each timestamp, the rows carrying it come out in input order |
| History.HistoryStable | app.py:348-349 | among equal timestamps, verification rows precede question rows, each in the order the query returns them (taken to be log order) |
| Verification.CertificateService.SubmitCertificate | app.py:72-96 | a missing id gives 400 and makes no ledger call; a failed existence query gives a 500 with nothing sent; an id already on chain gives `on_chain` without a submission; otherwise exactly one submission, giving a tx hash, or a 500 after which the id may still be on chain |
| Verification.CertificateService.VerifyCertificate | app.py:99-145 | cache first (no ledger query on a hit); then the ledger, whose failed query gives a 500 with the log unchanged; a miss gives 404 with the log unchanged; a hit appends exactly one entry unless the username lower-cases to `guest`; Verified only on a cache or ledger hit |
| Verification.CertificateService.AskAboutCertificate | app.py:148-163 | missing id or question gives 400 and no log row; otherwise exactly one question row, username defaulting to `anonymous`, lang defaulting to `en` only when absent and logged as NULL when null, and the answer returned |
| Verification.CertificateService.VerifierHistory | app.py:299-355 | missing username gives 400; otherwise the merged newest-first history of that user |
| Search.FirstMatch | app.py:409 | `next(...)` gives the first index satisfying the test, or nothing exactly when no element does |
| Onboarding.RegistrarCode | app.py:427-428 | the code has the shape `CERT-dddd` with a first digit that is not zero |
| Onboarding.RegistrarCodeRoundTrip | app.py:428 | the digits of a code read back as the drawn number |
| Onboarding.FirstRequestFor | app.py:409 | the first pending request whose domain is exactly the given one, or nothing exactly when there is none |
| Onboarding.RemoveDomain | app.py:446 | no request with the domain remains, and the list does not grow |
| Onboarding.RemoveDomainCounts | app.py:495 | every request for another domain survives as often as it occurred; none for the domain does |
| Onboarding.RemoveDomainConcat | app.py:495 | the filter keeps order: it acts on each part of a list separately |
| Onboarding.RemoveDomainNoMatch | app.py:495 | when no request has the domain, the list is unchanged |
| Onboarding.RemoveDomainIdempotent | app.py:495 | rejecting the same domain twice removes nothing the second time |
| Onboarding.ApprovalKeepsUnique | app.py:421-436 | appending an institution that passed the duplicate scan keeps "no two institutions share a lower-cased domain or a lower-cased trimmed name" |
| Onboarding.UniqueDomains | app.py:421-424 | in a unique list each exact domain belongs to at most one institution |
| Onboarding.HasDuplicate | app.py:422-424 | the scan reports a conflict exactly when some institution has the domain ignoring case, or the trimmed name ignoring case |
| Onboarding.InstitutionRegistry.RequestInstitution | app.py:358-390 | a missing name, domain or email gives 400 with pending unchanged; otherwise exactly one entry is appended, message defaulting to empty, with no duplicate check |
| Onboarding.InstitutionRegistry.ApproveInstitution | app.py:393-453 | 400 or 404 or 409 leave everything unchanged; success appends one `{name, domain, CERT-n}` with 1000 ≤ n ≤ 9999, removes exactly the pending requests with that exact domain, and preserves uniqueness |
| Onboarding.InstitutionRegistry.RejectInstitution | app.py:480-503 | removes exactly the pending requests with that exact domain, in order, and returns 200 even when none matched |
| Registration.FirstInstitutionFor | app.py:223 | the first approved institution with exactly that domain, or nothing exactly when none has it |
| Registration.CheckRole | app.py:210-230 | each outcome exactly: non-registrar roles become verifier; missing registrar fields give 400; an email not ending in `@domain` gives 400; no institution with that exact domain gives 400; the first institution with that domain admits exactly when its code equals the given one, and refuses with 403 otherwise |
| Registration.RegistrarGateOverUniqueList | app.py:223-228 | over a unique institution list, a registrar whose email ends with `@domain` (all fields non-empty) is admitted exactly when some institution has that domain and code; the code is refused exactly when the domain is known but the code differs |
| Registration.UserDirectory.RegisterUser | app.py:207-256 | missing fields give 400; a failed gate gives 400/403; an existing username gives 409; otherwise one user is inserted with the granted role (email and domain only for registrars); usernames stay unique |
| Scenarios.SubmitTwice | app.py:80-96 | once the first submission of a new id succeeds, the second call sees it on chain (or its query fails) and sends nothing; after a failed first submission the second call either recognises a transaction that was mined anyway or sends the id again; a successful second call leaves the id on chain |
| Scenarios.VerifyTwice | app.py:111-145 | after a named user's successful verification, the next one succeeds from the cache and makes no ledger query; the first queries the ledger exactly when the cache missed |
| Scenarios.RequestAndApprove | app.py:358-453 | a request followed by its approval yields one institution with a `CERT-dddd` code and an empty pending list |
| Scenarios.RegisterRegistrars | app.py:210-230 | against an approved list whose first `acme.edu` entry carries the code, that code admits the registrar and a wrong code is refused with 403 |
| Scenarios.SameDomainInOtherCase | app.py:423 | `ACME.edu` and `acme.edu` are the same domain ignoring case |
| Scenarios.RequestSameDomainAgain | app.py:421-424 | once an institution is approved and its domain, in any letter case, is requested again under any name, the request is accepted but its approval fails with 409 and the institutions are unchanged |
| Scenarios.OnboardingWalkthrough | app.py:358-453 | request, approval, registrar sign-up and a refused duplicate, end to end |

## Left out

- HTTP plumbing is not modelled: Flask routing, `request.get_json`, `jsonify`, CORS,
  and JSON payloads whose fields are not strings or null.
- Storage read/write failures are left out. These are the 500 outcomes of
  `/verify`, `/verifier-history`, approve, reject, request and register. Two of them
  silently reset a list in the code, and the model does not capture that:
  - `/institution-request` treats an unreadable pending file as empty;
  - `/approve-institution` treats an unreadable institutions file as empty.
- `log_question`'s swallowed insert errors are left out. So is the never-called
  `log_verification` helper. Both are persistence mechanics.
- The `GET /pending-institutions` and `GET /institutions` routes are left out. They
  only return a stored list.
- `/login`, `/reset-password` and the bcrypt hashing in `/register` are left out,
  because they are a foreign library. `User` has no password field.
- The web3 client internals are left out: nonce, gas, signing and the RPC transport. A
  failed existence query is modelled (`Ledger.Lookup`), as the uncaught 500 of `/submit` and `/verify`.
- History.HistoryStable: the two history queries have no `ORDER BY`, so SQL does not fix the
  order of the fetched rows. The model assumes SQLite's rowid scan order, that is, log order;
  that assumption decides the order of rows with equal timestamps.
- Ledger.Ledger.Submit: treats a successful transaction as on the chain before the next request. Confirmation latency, reorganisations, and reverted or dropped transactions (a returned hash only means the node accepted it; it can still run out of the fixed 200000 gas) are not modelled.
- The OpenAI prompt formatting in `ai_analysis.py` is left out. The answer is a parameter.
- Concurrency is left out: the duplicate-approval race and the non-atomic
  two-file update of approve. Each handler is one sequential step.
- Text.Lower: models ASCII lower-casing only. This matches SQLite's `LOWER()` but not
  Python's Unicode `.lower()` on non-ASCII letters.
- Text.Strip: removes the ASCII characters that Python treats as whitespace. Non-ASCII
  whitespace is not modelled.
- Collisions of registrar codes between institutions are not checked by the code and
  are not modelled as a property.
