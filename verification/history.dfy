/**
 * Histories of ledger transactions. Because every transaction of
 * src/services/codeService.js is atomic, any run of them is a sequence of
 * whole steps; the lemmas here are about such sequences: the two copies of
 * a code stay equal, and a user's verified flag is set exactly when a
 * verification matched the code that was active at that moment and no code
 * has been issued to the user since.
 */
module LedgerHistory {
  import opened Wrappers
  import opened CodeLedger

  /** One transaction, with the code it writes or the value entered already chosen. */
  datatype Op =
    | Create(u: UserId, code: string, now: Timestamp)
    | Update(u: UserId, code: string, now: Timestamp)
    | Verify(u: UserId, entered: string, now: Timestamp)

  /** The store after one transaction; a transaction that throws leaves it as it was. */
  function Step(db: Db, op: Op): Db {
    match op
    case Create(u, code, now) => CreateTx(db, u, code, now).db
    case Update(u, code, now) => UpdateTx(db, u, code, now).db
    case Verify(u, entered, now) => VerifyTx(db, u, entered, now).db
  }

  /** The store after a sequence of transactions, applied first to last. */
  function Run(db: Db, ops: seq<Op>): Db
    decreases |ops|
  {
    if ops == [] then db else Step(Run(db, ops[..|ops| - 1]), ops[|ops| - 1])
  }

  /** `op` writes a fresh code for `u`. */
  predicate IssuesFor(op: Op, u: UserId) {
    (op.Create? || op.Update?) && op.u == u
  }

  /** No transaction in `ops` writes a fresh code for `u`. */
  predicate NoIssueFor(ops: seq<Op>, u: UserId) {
    forall i :: 0 <= i < |ops| ==> !IssuesFor(ops[i], u)
  }

  /** `entered` is `u`'s stored code and `u`'s profile exists: the case in which verification succeeds. */
  predicate Matches(db: Db, u: UserId, entered: string) {
    u in db.users && u in db.userCodes && db.userCodes[u].code == entered
  }

  /** The `k`-th transaction verified `u` with the code active just before it. */
  predicate MatchedAt(db: Db, ops: seq<Op>, k: nat, u: UserId)
    requires k < |ops|
  {
    ops[k].Verify? && ops[k].u == u && Matches(Run(db, ops[..k]), u, ops[k].entered)
  }

  /**
   * Verification since the last issue: either the flag was already set
   * and nothing was issued since, or some transaction matched and nothing
   * was issued after it.
   */
  predicate VerifiedSinceIssue(db: Db, ops: seq<Op>, u: UserId)
    requires u in db.users
  {
    || (db.users[u].hasVerifiedCode == Some(true) && NoIssueFor(ops, u))
    || exists k :: 0 <= k < |ops| && MatchedAt(db, ops, k, u) && NoIssueFor(ops[k + 1..], u)
  }

  /** What one transaction does to `u`'s verified flag. */
  lemma StepFlag(db: Db, op: Op, u: UserId)
    requires u in db.users
    ensures u in Step(db, op).users
    ensures Step(db, op).users[u].hasVerifiedCode ==
      if IssuesFor(op, u) then Some(false)
      else if op.Verify? && op.u == u && Matches(db, u, op.entered) then Some(true)
      else db.users[u].hasVerifiedCode
  {
  }

  /** No transaction creates or deletes a profile. */
  lemma {:induction false} RunKeepsUsers(db: Db, ops: seq<Op>)
    ensures Run(db, ops).users.Keys == db.users.Keys
    decreases |ops|
  {
    if ops != [] {
      RunKeepsUsers(db, ops[..|ops| - 1]);
    }
  }

  /** Every history keeps the profile's copy of a code equal to the code record's. */
  lemma {:induction false} RunPreservesAgreement(db: Db, ops: seq<Op>)
    requires CodesAgree(db)
    ensures CodesAgree(Run(db, ops))
    decreases |ops|
  {
    if ops != [] {
      var pre, op := ops[..|ops| - 1], ops[|ops| - 1];
      RunPreservesAgreement(db, pre);
      match op
      case Create(u, code, now) => TransactionsPreserveAgreement(Run(db, pre), u, code, code, now);
      case Update(u, code, now) => TransactionsPreserveAgreement(Run(db, pre), u, code, code, now);
      case Verify(u, entered, now) => TransactionsPreserveAgreement(Run(db, pre), u, entered, entered, now);
    }
  }

  /** A history that ends by issuing a code to `u` leaves `u` unverified. */
  lemma SinceIssueAfterIssue(db: Db, ops: seq<Op>, u: UserId)
    requires u in db.users
    requires |ops| > 0 && IssuesFor(ops[|ops| - 1], u)
    ensures !VerifiedSinceIssue(db, ops, u)
  {
    var n := |ops|;
    assert !NoIssueFor(ops, u);
    forall k | 0 <= k < n && MatchedAt(db, ops, k, u)
      ensures !NoIssueFor(ops[k + 1..], u)
    {
      assert ops[k + 1..][n - 1 - (k + 1)] == ops[n - 1];
    }
  }

  /** A history that ends by a matching verification of `u` leaves `u` verified. */
  lemma SinceIssueAfterMatch(db: Db, ops: seq<Op>, u: UserId)
    requires u in db.users
    requires |ops| > 0 && MatchedAt(db, ops, |ops| - 1, u)
    ensures VerifiedSinceIssue(db, ops, u)
  {
    assert NoIssueFor(ops[|ops|..], u);
  }

  /** Dropping the last transaction changes neither an earlier match nor, apart from that transaction, what follows it. */
  lemma DropLast(db: Db, ops: seq<Op>, k: nat, u: UserId)
    requires k < |ops| - 1
    ensures MatchedAt(db, ops, k, u) == MatchedAt(db, ops[..|ops| - 1], k, u)
    ensures NoIssueFor(ops[k + 1..], u) <==> NoIssueFor(ops[..|ops| - 1][k + 1..], u) && !IssuesFor(ops[|ops| - 1], u)
  {
    var pre := ops[..|ops| - 1];
    assert ops[..k] == pre[..k];
    assert ops[k + 1..] == pre[k + 1..] + [ops[|ops| - 1]];
  }

  /** Without the last transaction, nothing is issued in `ops` exactly when nothing is issued in its prefix and the last one does not issue. */
  lemma NoIssueDropLast(ops: seq<Op>, u: UserId)
    requires |ops| > 0
    ensures NoIssueFor(ops, u) <==> NoIssueFor(ops[..|ops| - 1], u) && !IssuesFor(ops[|ops| - 1], u)
  {
    assert ops == ops[..|ops| - 1] + [ops[|ops| - 1]];
  }

  /** A verification that held before a last transaction not issuing to `u` still holds after it. */
  lemma SinceIssueKept(db: Db, ops: seq<Op>, u: UserId)
    requires u in db.users
    requires |ops| > 0 && !IssuesFor(ops[|ops| - 1], u)
    requires VerifiedSinceIssue(db, ops[..|ops| - 1], u)
    ensures VerifiedSinceIssue(db, ops, u)
  {
    var pre := ops[..|ops| - 1];
    NoIssueDropLast(ops, u);
    if !(db.users[u].hasVerifiedCode == Some(true) && NoIssueFor(pre, u)) {
      var k :| 0 <= k < |pre| && MatchedAt(db, pre, k, u) && NoIssueFor(pre[k + 1..], u);
      DropLast(db, ops, k, u);
      assert MatchedAt(db, ops, k, u) && NoIssueFor(ops[k + 1..], u);
    }
  }

  /** A verification that holds after a last transaction which did not match already held before it. */
  lemma SinceIssueEarlier(db: Db, ops: seq<Op>, u: UserId)
    requires u in db.users
    requires |ops| > 0 && !MatchedAt(db, ops, |ops| - 1, u)
    requires VerifiedSinceIssue(db, ops, u)
    ensures VerifiedSinceIssue(db, ops[..|ops| - 1], u)
  {
    var pre := ops[..|ops| - 1];
    NoIssueDropLast(ops, u);
    if !(db.users[u].hasVerifiedCode == Some(true) && NoIssueFor(ops, u)) {
      var k :| 0 <= k < |ops| && MatchedAt(db, ops, k, u) && NoIssueFor(ops[k + 1..], u);
      assert k < |ops| - 1;
      DropLast(db, ops, k, u);
      assert MatchedAt(db, pre, k, u) && NoIssueFor(pre[k + 1..], u);
    }
  }

  /**
   * A user's verified flag is set after a history exactly when a
   * verification since the last issue of a code matched the code active
   * at that moment (or the flag was set before and nothing was issued).
   */
  lemma {:induction false} VerifiedFlagExact(db: Db, ops: seq<Op>, u: UserId)
    requires u in db.users
    ensures u in Run(db, ops).users
    ensures Run(db, ops).users[u].hasVerifiedCode == Some(true) <==> VerifiedSinceIssue(db, ops, u)
    decreases |ops|
  {
    RunKeepsUsers(db, ops);
    if ops != [] {
      var n := |ops|;
      var pre, op := ops[..n - 1], ops[n - 1];
      RunKeepsUsers(db, pre);
      VerifiedFlagExact(db, pre, u);
      StepFlag(Run(db, pre), op, u);
      if IssuesFor(op, u) {
        SinceIssueAfterIssue(db, ops, u);
      } else if MatchedAt(db, ops, n - 1, u) {
        SinceIssueAfterMatch(db, ops, u);
      } else if VerifiedSinceIssue(db, pre, u) {
        SinceIssueKept(db, ops, u);
      } else if VerifiedSinceIssue(db, ops, u) {
        SinceIssueEarlier(db, ops, u);
      }
    }
  }
}
