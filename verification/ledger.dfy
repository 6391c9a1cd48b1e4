/**
 * The code ledger of src/services/codeService.js as values: the two
 * Firestore collections it couples (`users` and `userCodes`, both keyed by
 * user id), the effect of each transaction on them, and the read-only
 * projections over them. Each transaction is one function from the store
 * before to the store after together with what the call returns or throws;
 * a transaction that throws leaves the store exactly as it was.
 */
module CodeLedger {
  import opened Wrappers

  type UserId = string

  /** A server timestamp. Only its identity matters to the ledger. */
  type Timestamp = nat

  /**
   * A document of the `users` collection. Profiles are provisioned outside
   * the ledger, so every field the ledger writes may still be missing.
   */
  datatype UserRecord = UserRecord(
    displayName: Option<string>,
    email: Option<string>,
    uniqueCode: Option<string>,
    hasVerifiedCode: Option<bool>,
    codeGeneratedAt: Option<Timestamp>,
    codeVerifiedAt: Option<Timestamp>)

  /** A document of the `userCodes` collection. */
  datatype CodeRecord = CodeRecord(
    code: string,
    createdAt: Option<Timestamp>,
    updatedAt: Option<Timestamp>,
    userId: UserId)

  /** Both collections at one instant. */
  datatype Db = Db(users: map<UserId, UserRecord>, userCodes: map<UserId, CodeRecord>)

  /** Why a transaction threw. */
  datatype LedgerError =
    | NoUserToUpdate    // `transaction.update` on a `users` document that does not exist
    | UserCodeNotFound  // verification found no `userCodes` document

  /** The store after a transaction and what the call returned or threw. */
  datatype Tx<T> = Tx(db: Db, out: Result<T, LedgerError>)

  /** A user document together with its id, as the source returns it (`{ id, ...data }`). */
  datatype UserDoc = UserDoc(id: UserId, profile: UserRecord)

  /** What `getCodeInfo` reports about one user. */
  datatype CodeInfo = CodeInfo(
    code: Option<string>,
    generatedAt: Option<Timestamp>,
    verified: bool,
    verifiedAt: Option<Timestamp>)

  // ---------------------------------------------------------------------
  // Invariants and frame conditions
  // ---------------------------------------------------------------------

  /** The denormalised copy agrees: wherever both documents exist, the profile's code is the code record's. */
  predicate CodesAgree(db: Db) {
    forall u :: u in db.users && u in db.userCodes ==> db.users[u].uniqueCode == Some(db.userCodes[u].code)
  }

  /** No document appears or disappears except `u`'s code record, and every other user's documents are as before. */
  predicate OthersUnchanged(db: Db, db': Db, u: UserId) {
    && db'.users.Keys == db.users.Keys
    && db'.userCodes.Keys - {u} == db.userCodes.Keys - {u}
    && (forall v :: v in db.users && v != u ==> v in db'.users && db'.users[v] == db.users[v])
    && (forall v :: v in db.userCodes && v != u ==> v in db'.userCodes && db'.userCodes[v] == db.userCodes[v])
  }

  /** The profile fields the ledger never writes are those of `p`. */
  predicate SameIdentity(p: UserRecord, p': UserRecord) {
    p'.displayName == p.displayName && p'.email == p.email
  }

  /** `code` is the user's active, not yet verified code, in both documents. */
  predicate Issued(db: Db, u: UserId, code: string) {
    && u in db.users && u in db.userCodes
    && db.userCodes[u].code == code
    && db.userCodes[u].userId == u
    && db.users[u].uniqueCode == Some(code)
    && db.users[u].hasVerifiedCode == Some(false)
  }

  /** The profile a fresh code is written into: code, reset flag and generation time. */
  function WithFreshCode(p: UserRecord, code: string, now: Timestamp): UserRecord {
    p.(uniqueCode := Some(code), hasVerifiedCode := Some(false), codeGeneratedAt := Some(now))
  }

  // ---------------------------------------------------------------------
  // Transactions
  // ---------------------------------------------------------------------

  /**
   * `createUserCode`: the code record is replaced wholesale by
   * `{code, createdAt, userId}` and the profile is updated; the update of a
   * missing profile aborts the whole transaction.
   */
  function CreateTx(db: Db, u: UserId, code: string, now: Timestamp): (t: Tx<string>)
    ensures t.out.Success? <==> u in db.users
    ensures t.out.Failure? ==> t.out.error == NoUserToUpdate && t.db == db
    ensures t.out.Success? ==>
      && t.out.value == code
      && Issued(t.db, u, code)
      && OthersUnchanged(db, t.db, u)
      && SameIdentity(db.users[u], t.db.users[u])
      && t.db.users[u].codeGeneratedAt == Some(now)
      && t.db.users[u].codeVerifiedAt == db.users[u].codeVerifiedAt
      && t.db.userCodes[u].createdAt == Some(now)
      && t.db.userCodes[u].updatedAt == None
  {
    if u !in db.users then Tx(db, Failure(NoUserToUpdate))
    else
      var record := CodeRecord(code, Some(now), None, u);
      Tx(Db(db.users[u := WithFreshCode(db.users[u], code, now)], db.userCodes[u := record]), Success(code))
  }

  /**
   * `updateUserCode`: like `createUserCode`, but the code record is merged
   * with `{code, updatedAt, userId}`, so an earlier `createdAt` survives.
   */
  function UpdateTx(db: Db, u: UserId, code: string, now: Timestamp): (t: Tx<string>)
    ensures t.out.Success? <==> u in db.users
    ensures t.out.Failure? ==> t.out.error == NoUserToUpdate && t.db == db
    ensures t.out.Success? ==>
      && t.out.value == code
      && Issued(t.db, u, code)
      && OthersUnchanged(db, t.db, u)
      && SameIdentity(db.users[u], t.db.users[u])
      && t.db.users[u].codeGeneratedAt == Some(now)
      && t.db.users[u].codeVerifiedAt == db.users[u].codeVerifiedAt
      && t.db.userCodes[u].createdAt == (if u in db.userCodes then db.userCodes[u].createdAt else None)
      && t.db.userCodes[u].updatedAt == Some(now)
  {
    if u !in db.users then Tx(db, Failure(NoUserToUpdate))
    else
      var createdAt := if u in db.userCodes then db.userCodes[u].createdAt else None;
      var record := CodeRecord(code, createdAt, Some(now), u);
      Tx(Db(db.users[u := WithFreshCode(db.users[u], code, now)], db.userCodes[u := record]), Success(code))
  }

  /**
   * `verifyUserCode`: throws when there is no code record; on an exact match
   * marks the profile verified (which throws if the profile is missing);
   * otherwise returns false and writes nothing.
   */
  function VerifyTx(db: Db, u: UserId, entered: string, now: Timestamp): (t: Tx<bool>)
    ensures u !in db.userCodes ==> t.out == Failure(UserCodeNotFound)
    ensures t.out == Failure(NoUserToUpdate) <==>
      u in db.userCodes && db.userCodes[u].code == entered && u !in db.users
    ensures t.out == Success(false) <==> u in db.userCodes && db.userCodes[u].code != entered
    ensures t.out == Success(true) <==>
      u in db.userCodes && db.userCodes[u].code == entered && u in db.users
    ensures t.out != Success(true) ==> t.db == db
    ensures t.out == Success(true) ==>
      && t.db.userCodes == db.userCodes
      && OthersUnchanged(db, t.db, u)
      && SameIdentity(db.users[u], t.db.users[u])
      && t.db.users[u].uniqueCode == db.users[u].uniqueCode
      && t.db.users[u].codeGeneratedAt == db.users[u].codeGeneratedAt
      && t.db.users[u].hasVerifiedCode == Some(true)
      && t.db.users[u].codeVerifiedAt == Some(now)
  {
    if u !in db.userCodes then Tx(db, Failure(UserCodeNotFound))
    else if db.userCodes[u].code != entered then Tx(db, Success(false))
    else if u !in db.users then Tx(db, Failure(NoUserToUpdate))
    else
      var profile := db.users[u].(hasVerifiedCode := Some(true), codeVerifiedAt := Some(now));
      Tx(db.(users := db.users[u := profile]), Success(true))
  }

  // ---------------------------------------------------------------------
  // Read-only projections
  // ---------------------------------------------------------------------

  /** JavaScript's `s || null` on a string: the empty string is falsy. */
  function NonEmpty(s: string): (r: Option<string>)
    ensures r.Some? <==> s != ""
    ensures r.Some? ==> r.value == s
  {
    if s == "" then None else Some(s)
  }

  /** `getCodeByUserId`: the stored code, or null when the user has no code record. */
  function GetCodeByUserId(db: Db, u: UserId): (r: Option<string>)
    ensures r.Some? <==> u in db.userCodes
    ensures r.Some? ==> r.value == db.userCodes[u].code
  {
    if u in db.userCodes then Some(db.userCodes[u].code) else None
  }

  /**
   * `getCodeInfo`: null for a missing profile; otherwise the code and its
   * creation time from the code record (null when absent or, for the code,
   * empty) and the verification flag and time from the profile.
   */
  function GetCodeInfo(db: Db, u: UserId): (r: Option<CodeInfo>)
    ensures r.None? <==> u !in db.users
    ensures r.Some? ==> (r.value.code.Some? <==> u in db.userCodes && db.userCodes[u].code != "")
    ensures r.Some? && r.value.code.Some? ==> r.value.code.value == db.userCodes[u].code
    ensures r.Some? ==> r.value.generatedAt == (if u in db.userCodes then db.userCodes[u].createdAt else None)
    ensures r.Some? ==> (r.value.verified <==> db.users[u].hasVerifiedCode == Some(true))
    ensures r.Some? ==> r.value.verifiedAt == db.users[u].codeVerifiedAt
  {
    if u !in db.users then None
    else
      var profile := db.users[u];
      var record := if u in db.userCodes then Some(db.userCodes[u]) else None;
      Some(CodeInfo(
        if record.Some? then NonEmpty(record.value.code) else None,
        if record.Some? then record.value.createdAt else None,
        profile.hasVerifiedCode.GetOr(false),
        profile.codeVerifiedAt))
  }

  /** `checkCodeVerification`: the profile's flag, false when the profile or the flag is missing. */
  function CheckCodeVerification(db: Db, u: UserId): (r: bool)
    ensures r <==> u in db.users && db.users[u].hasVerifiedCode == Some(true)
    ensures r <==> GetCodeInfo(db, u).Some? && GetCodeInfo(db, u).value.verified
  {
    if u !in db.users then false else db.users[u].hasVerifiedCode.GetOr(false)
  }

  /** A row of `getAllUsersWithCodes`: the profile with its code replaced by the code record's. */
  function ListingRow(db: Db, u: UserId): (row: UserDoc)
    requires u in db.users && u in db.userCodes
    ensures row.id == u
    ensures SameIdentity(db.users[u], row.profile)
    ensures row.profile.uniqueCode == Some(db.userCodes[u].code)
    ensures row.profile.hasVerifiedCode == db.users[u].hasVerifiedCode
    ensures row.profile.(uniqueCode := db.users[u].uniqueCode) == db.users[u]
  {
    UserDoc(u, db.users[u].(uniqueCode := Some(db.userCodes[u].code)))
  }

  /** The ids a sequence of rows covers. */
  function RowIds(rows: seq<UserDoc>): set<UserId> {
    set k | 0 <= k < |rows| :: rows[k].id
  }

  // ---------------------------------------------------------------------
  // Properties of the transactions
  // ---------------------------------------------------------------------

  /** Create, update and verify keep the two copies of every user's code equal. */
  lemma TransactionsPreserveAgreement(db: Db, u: UserId, code: string, entered: string, now: Timestamp)
    requires CodesAgree(db)
    ensures CodesAgree(CreateTx(db, u, code, now).db)
    ensures CodesAgree(UpdateTx(db, u, code, now).db)
    ensures CodesAgree(VerifyTx(db, u, entered, now).db)
  {
  }

  /** After issuing a code, every read-only view shows it active and not verified. */
  lemma IssueIsVisible(db: Db, u: UserId, code: string, now: Timestamp, rotate: bool)
    requires u in db.users
    ensures var t := if rotate then UpdateTx(db, u, code, now) else CreateTx(db, u, code, now);
      && t.out == Success(code)
      && GetCodeByUserId(t.db, u) == Some(code)
      && !CheckCodeVerification(t.db, u)
      && GetCodeInfo(t.db, u).Some?
      && GetCodeInfo(t.db, u).value.code == NonEmpty(code)
      && !GetCodeInfo(t.db, u).value.verified
  {
  }

  /** Entering the active code verifies the user; entering anything else does not. */
  lemma VerifyActiveCode(db: Db, u: UserId, code: string, entered: string, now: Timestamp)
    requires Issued(db, u, code)
    ensures VerifyTx(db, u, entered, now).out == Success(entered == code)
    ensures CheckCodeVerification(VerifyTx(db, u, entered, now).db, u) <==> entered == code
  {
  }

  /**
   * Rotation invalidates the previous code: once `updateUserCode` has
   * written `c2`, entering any other value fails without effect and
   * entering `c2` succeeds.
   */
  lemma RotationInvalidatesOldCode(db: Db, u: UserId, c2: string, c1: string, t1: Timestamp, t2: Timestamp)
    requires u in db.users && c1 != c2
    ensures var db1 := UpdateTx(db, u, c2, t1).db;
      && VerifyTx(db1, u, c1, t2) == Tx(db1, Success(false))
      && VerifyTx(db1, u, c2, t2).out == Success(true)
  {
    VerifyActiveCode(UpdateTx(db, u, c2, t1).db, u, c2, c1, t2);
  }

  /** A wrong guess changes nothing, so repeating it gives the same answer on the same store. */
  lemma WrongGuessIsIdempotent(db: Db, u: UserId, x: string, t1: Timestamp, t2: Timestamp)
    requires VerifyTx(db, u, x, t1).out == Success(false)
    ensures VerifyTx(db, u, x, t1).db == db
    ensures VerifyTx(VerifyTx(db, u, x, t1).db, u, x, t2) == Tx(db, Success(false))
  {
  }

  /** Rotation clears the verified flag, whatever it was. */
  lemma RotationResetsVerification(db: Db, u: UserId, code: string, entered: string, now: Timestamp, later: Timestamp)
    requires VerifyTx(db, u, entered, now).out == Success(true)
    ensures CheckCodeVerification(VerifyTx(db, u, entered, now).db, u)
    ensures !CheckCodeVerification(UpdateTx(VerifyTx(db, u, entered, now).db, u, code, later).db, u)
  {
  }

  /**
   * The creation time `getCodeInfo` reports is the code record's
   * `createdAt`, which only `createUserCode` writes: after a rotation it
   * still names the original issue, while the profile records the rotation.
   */
  lemma RotationKeepsReportedCreationTime(db: Db, u: UserId, c1: string, c2: string, t1: Timestamp, t2: Timestamp)
    requires u in db.users
    ensures var db2 := UpdateTx(CreateTx(db, u, c1, t1).db, u, c2, t2).db;
      && GetCodeInfo(db2, u).value.generatedAt == Some(t1)
      && db2.users[u].codeGeneratedAt == Some(t2)
  {
  }

  /** A code first issued by `updateUserCode` has no creation time to report. */
  lemma FirstIssueByUpdateHasNoCreationTime(db: Db, u: UserId, code: string, now: Timestamp)
    requires u in db.users && u !in db.userCodes
    ensures GetCodeInfo(UpdateTx(db, u, code, now).db, u).value.generatedAt == None
  {
  }
}
