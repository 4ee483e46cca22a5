/** The two audit tables of `users.db`: `verified_logs` and `questions_logs`. */
module Logs {
  import opened Wrappers
  import opened Text

  datatype VerificationLogEntry = VerificationLogEntry(username: string, certificateId: string, timestamp: string)

  datatype QuestionLogEntry = QuestionLogEntry(
    username: string, certificateId: string, question: string,
    lang: Option<string>, answer: string, timestamp: string)

  /** `datetime.utcnow().isoformat() + "Z"`, with the clock reading supplied. */
  function Timestamp(clock: string): string
  {
    clock + "Z"
  }

  /** `LOWER(username) = LOWER(?)`. */
  predicate SameUser(a: string, b: string) {
    Lower(a) == Lower(b)
  }

  /** The cache query of `/verify`: some row for this user (any case) and exactly this id. */
  predicate CacheHit(log: seq<VerificationLogEntry>, username: string, certificateId: string) {
    exists i :: 0 <= i < |log| && SameUser(log[i].username, username) && log[i].certificateId == certificateId
  }

  /** The cache is never invalidated: appending rows keeps every hit. */
  lemma CacheHitPersists(log: seq<VerificationLogEntry>, more: seq<VerificationLogEntry>, username: string, certificateId: string)
    requires CacheHit(log, username, certificateId)
    ensures CacheHit(log + more, username, certificateId)
  {
    var i :| 0 <= i < |log| && SameUser(log[i].username, username) && log[i].certificateId == certificateId;
    assert (log + more)[i] == log[i];
  }

  /** A row written for a user answers the cache for every spelling of that user. */
  lemma AppendedRowHits(log: seq<VerificationLogEntry>, entry: VerificationLogEntry, username: string)
    requires SameUser(entry.username, username)
    ensures CacheHit(log + [entry], username, entry.certificateId)
  {
    assert (log + [entry])[|log|] == entry;
  }
}
