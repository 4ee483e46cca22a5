/**
 * `/verifier-history`: the verification rows and question rows of one
 * user (matched case-insensitively), concatenated and sorted by timestamp
 * string, newest first. Python's `list.sort(reverse=True)` is stable, so
 * rows with equal timestamps keep their original order.
 */
module History {
  import opened Wrappers
  import opened Text
  import opened Ordering
  import opened Logs

  /** One element of the JSON array; `username` is the name the caller asked for. */
  datatype HistoryRow =
    | VerifiedRow(certificateId: string, timestamp: string, username: string)
    | QuestionRow(certificateId: string, question: string, answer: string, lang: Option<string>, timestamp: string, username: string)

  function RowOfVerification(e: VerificationLogEntry, username: string): HistoryRow {
    VerifiedRow(e.certificateId, e.timestamp, username)
  }

  function RowOfQuestion(e: QuestionLogEntry, username: string): HistoryRow {
    QuestionRow(e.certificateId, e.question, e.answer, e.lang, e.timestamp, username)
  }

  /** The `verified_logs` query and the comprehension over its rows. */
  function VerifiedRows(log: seq<VerificationLogEntry>, username: string): (r: seq<HistoryRow>)
    ensures |r| <= |log|
    ensures forall k :: 0 <= k < |r| ==> r[k].VerifiedRow? && r[k].username == username
  {
    if log == [] then
      []
    else
      var head := if SameUser(log[0].username, username) then [RowOfVerification(log[0], username)] else [];
      head + VerifiedRows(log[1..], username)
  }

  /** The `questions_logs` query and the comprehension over its rows. */
  function QuestionRows(log: seq<QuestionLogEntry>, username: string): (r: seq<HistoryRow>)
    ensures |r| <= |log|
    ensures forall k :: 0 <= k < |r| ==> r[k].QuestionRow? && r[k].username == username
  {
    if log == [] then
      []
    else
      var head := if SameUser(log[0].username, username) then [RowOfQuestion(log[0], username)] else [];
      head + QuestionRows(log[1..], username)
  }

  /** Rows are in non-increasing timestamp order. */
  predicate NonIncreasing(s: seq<HistoryRow>) {
    forall i, j :: 0 <= i < j < |s| ==> StringLe(s[j].timestamp, s[i].timestamp)
  }

  /** All rows of `s` carry a timestamp no later than `t`. */
  predicate AllAtMost(s: seq<HistoryRow>, t: string) {
    forall k :: 0 <= k < |s| ==> StringLe(s[k].timestamp, t)
  }

  /** Rows with the same multiset of values share every upper bound. */
  lemma AllAtMostByMultiset(a: seq<HistoryRow>, b: seq<HistoryRow>, t: string)
    requires multiset(a) == multiset(b) && AllAtMost(b, t)
    ensures AllAtMost(a, t)
  {
    forall k | 0 <= k < |a|
      ensures StringLe(a[k].timestamp, t)
    {
      assert a[k] in multiset(b);
      var j :| 0 <= j < |b| && b[j] == a[k];
    }
  }

  /** Insert `x` before the first row whose timestamp is not later than its own. */
  function InsertDesc(x: HistoryRow, s: seq<HistoryRow>): (r: seq<HistoryRow>)
    requires NonIncreasing(s)
    ensures NonIncreasing(r)
    ensures multiset(r) == multiset{x} + multiset(s)
  {
    if s == [] || StringLe(s[0].timestamp, x.timestamp) then
      var r := [x] + s;
      assert forall i, j :: 0 < i < j < |r| ==> StringLe(r[j].timestamp, r[i].timestamp) by {
        forall i, j | 0 < i < j < |r|
          ensures StringLe(r[j].timestamp, r[i].timestamp)
        {
          assert r[i] == s[i - 1] && r[j] == s[j - 1];
        }
      }
      forall j | 0 < j < |r|
        ensures StringLe(r[j].timestamp, r[0].timestamp)
      {
        if j > 1 {
          StringLeTransitive(s[j - 1].timestamp, s[0].timestamp, x.timestamp);
        }
      }
      r
    else
      var rest := InsertDesc(x, s[1..]);
      InsertBehindHead(x, s, rest);
      [s[0]] + rest
  }

  /** A row no older than every row of a newest-first list can go in front of it. */
  lemma ConsNonIncreasing(head: HistoryRow, rest: seq<HistoryRow>)
    requires NonIncreasing(rest) && AllAtMost(rest, head.timestamp)
    ensures NonIncreasing([head] + rest)
  {
  }

  /** The case of `InsertDesc` where `x` goes behind the head of `s`. */
  lemma InsertBehindHead(x: HistoryRow, s: seq<HistoryRow>, rest: seq<HistoryRow>)
    requires NonIncreasing(s) && s != [] && !StringLe(s[0].timestamp, x.timestamp)
    requires NonIncreasing(rest) && multiset(rest) == multiset{x} + multiset(s[1..])
    ensures NonIncreasing([s[0]] + rest)
    ensures multiset([s[0]] + rest) == multiset{x} + multiset(s)
  {
    StringLeTotal(x.timestamp, s[0].timestamp);
    var b := [x] + s[1..];
    forall k | 0 <= k < |b|
      ensures StringLe(b[k].timestamp, s[0].timestamp)
    {
      if k > 0 {
        assert b[k] == s[k];
      }
    }
    AllAtMostByMultiset(rest, b, s[0].timestamp);
    ConsNonIncreasing(s[0], rest);
    assert s == [s[0]] + s[1..];
  }

  /** A stable sort by timestamp, newest first (insertion sort). */
  function SortDesc(s: seq<HistoryRow>): (r: seq<HistoryRow>)
    ensures NonIncreasing(r)
    ensures multiset(r) == multiset(s)
  {
    if s == [] then []
    else
      assert s == [s[0]] + s[1..];
      InsertDesc(s[0], SortDesc(s[1..]))
  }

  /** The merged history of `username`. */
  function UserHistory(verified: seq<VerificationLogEntry>, questions: seq<QuestionLogEntry>, username: string): (r: seq<HistoryRow>)
    ensures NonIncreasing(r)
    ensures multiset(r) == multiset(VerifiedRows(verified, username)) + multiset(QuestionRows(questions, username))
  {
    SortDesc(VerifiedRows(verified, username) + QuestionRows(questions, username))
  }

  // ---- What the rows are ----

  lemma {:induction false} VerifiedRowsMembers(log: seq<VerificationLogEntry>, username: string, x: HistoryRow)
    ensures x in VerifiedRows(log, username) <==>
      exists i :: 0 <= i < |log| && SameUser(log[i].username, username) && x == RowOfVerification(log[i], username)
  {
    if log != [] {
      VerifiedRowsMembers(log[1..], username, x);
      if exists i :: 0 <= i < |log| && SameUser(log[i].username, username) && x == RowOfVerification(log[i], username) {
        var i :| 0 <= i < |log| && SameUser(log[i].username, username) && x == RowOfVerification(log[i], username);
        if i > 0 {
          assert log[1..][i - 1] == log[i];
        }
      }
      if x in VerifiedRows(log[1..], username) {
        var i :| 0 <= i < |log[1..]| && SameUser(log[1..][i].username, username) && x == RowOfVerification(log[1..][i], username);
        assert log[i + 1] == log[1..][i];
      }
    }
  }

  lemma {:induction false} QuestionRowsMembers(log: seq<QuestionLogEntry>, username: string, x: HistoryRow)
    ensures x in QuestionRows(log, username) <==>
      exists i :: 0 <= i < |log| && SameUser(log[i].username, username) && x == RowOfQuestion(log[i], username)
  {
    if log != [] {
      QuestionRowsMembers(log[1..], username, x);
      if exists i :: 0 <= i < |log| && SameUser(log[i].username, username) && x == RowOfQuestion(log[i], username) {
        var i :| 0 <= i < |log| && SameUser(log[i].username, username) && x == RowOfQuestion(log[i], username);
        if i > 0 {
          assert log[1..][i - 1] == log[i];
        }
      }
      if x in QuestionRows(log[1..], username) {
        var i :| 0 <= i < |log[1..]| && SameUser(log[1..][i].username, username) && x == RowOfQuestion(log[1..][i], username);
        assert log[i + 1] == log[1..][i];
      }
    }
  }

  /** Each log row contributes its own history row, one per matching row, in log order. */
  lemma {:induction false} VerifiedRowsAppend(a: seq<VerificationLogEntry>, b: seq<VerificationLogEntry>, username: string)
    ensures VerifiedRows(a + b, username) == VerifiedRows(a, username) + VerifiedRows(b, username)
  {
    if a != [] {
      assert (a + b)[1..] == a[1..] + b;
      VerifiedRowsAppend(a[1..], b, username);
    } else {
      assert a + b == b;
    }
  }

  lemma {:induction false} QuestionRowsAppend(a: seq<QuestionLogEntry>, b: seq<QuestionLogEntry>, username: string)
    ensures QuestionRows(a + b, username) == QuestionRows(a, username) + QuestionRows(b, username)
  {
    if a != [] {
      assert (a + b)[1..] == a[1..] + b;
      QuestionRowsAppend(a[1..], b, username);
    } else {
      assert a + b == b;
    }
  }

  /** A row is in the history exactly when a matching log row produced it. */
  lemma HistoryMembers(verified: seq<VerificationLogEntry>, questions: seq<QuestionLogEntry>, username: string, x: HistoryRow)
    ensures x in UserHistory(verified, questions, username) <==>
      || (exists i :: 0 <= i < |verified| && SameUser(verified[i].username, username) && x == RowOfVerification(verified[i], username))
      || (exists i :: 0 <= i < |questions| && SameUser(questions[i].username, username) && x == RowOfQuestion(questions[i], username))
  {
    var h := UserHistory(verified, questions, username);
    assert x in h <==> x in multiset(h);
    VerifiedRowsMembers(verified, username, x);
    QuestionRowsMembers(questions, username, x);
  }

  /**
   * A new verification row for `entry` adds exactly one row to the history
   * of every spelling of its user and leaves every other user's history as it was.
   */
  lemma HistoryAfterVerification(verified: seq<VerificationLogEntry>, questions: seq<QuestionLogEntry>,
                                 entry: VerificationLogEntry, username: string)
    ensures SameUser(entry.username, username) ==>
      multiset(UserHistory(verified + [entry], questions, username))
        == multiset(UserHistory(verified, questions, username)) + multiset{RowOfVerification(entry, username)}
    ensures !SameUser(entry.username, username) ==>
      UserHistory(verified + [entry], questions, username) == UserHistory(verified, questions, username)
  {
    VerifiedRowsAppend(verified, [entry], username);
    assert [entry][1..] == [];
    var one := VerifiedRows([entry], username);
    assert one == (if SameUser(entry.username, username) then [RowOfVerification(entry, username)] else []);
    assert VerifiedRows(verified + [entry], username) == VerifiedRows(verified, username) + one;
    if !SameUser(entry.username, username) {
      assert VerifiedRows(verified + [entry], username) == VerifiedRows(verified, username);
    }
  }

  // ---- Stability ----

  /** The rows of `s` whose timestamp is exactly `t`, in order. */
  function WithTimestamp(s: seq<HistoryRow>, t: string): seq<HistoryRow> {
    if s == [] then [] else (if s[0].timestamp == t then [s[0]] else []) + WithTimestamp(s[1..], t)
  }

  lemma WithTimestampCons(x: HistoryRow, s: seq<HistoryRow>, t: string)
    ensures WithTimestamp([x] + s, t) == (if x.timestamp == t then [x] else []) + WithTimestamp(s, t)
  {
  }

  lemma {:induction false} InsertDescStable(x: HistoryRow, s: seq<HistoryRow>, t: string)
    requires NonIncreasing(s)
    ensures WithTimestamp(InsertDesc(x, s), t) == WithTimestamp([x] + s, t)
  {
    if s == [] || StringLe(s[0].timestamp, x.timestamp) {
    } else {
      assert s == [s[0]] + s[1..];
      assert s[0].timestamp != x.timestamp by {
        if s[0].timestamp == x.timestamp {
          StringLeReflexive(x.timestamp);
        }
      }
      InsertDescStable(x, s[1..], t);
      WithTimestampCons(s[0], InsertDesc(x, s[1..]), t);
      WithTimestampCons(x, s[1..], t);
      WithTimestampCons(x, s, t);
      WithTimestampCons(s[0], s[1..], t);
    }
  }

  /** Rows with the same timestamp come out in the order they went in. */
  lemma {:induction false} SortDescStable(s: seq<HistoryRow>, t: string)
    ensures WithTimestamp(SortDesc(s), t) == WithTimestamp(s, t)
  {
    if s != [] {
      SortDescStable(s[1..], t);
      InsertDescStable(s[0], SortDesc(s[1..]), t);
      WithTimestampCons(s[0], SortDesc(s[1..]), t);
      WithTimestampCons(s[0], s[1..], t);
      assert s == [s[0]] + s[1..];
    }
  }

  /** Among rows with equal timestamps, verifications precede questions, each in log order. */
  lemma HistoryStable(verified: seq<VerificationLogEntry>, questions: seq<QuestionLogEntry>, username: string, t: string)
    ensures WithTimestamp(UserHistory(verified, questions, username), t)
      == WithTimestamp(VerifiedRows(verified, username) + QuestionRows(questions, username), t)
  {
    SortDescStable(VerifiedRows(verified, username) + QuestionRows(questions, username), t);
  }
}
