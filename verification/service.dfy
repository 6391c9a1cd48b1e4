/**
 * The service functions of src/services/codeService.js over a store that
 * holds the `users` and `userCodes` collections as two maps keyed by user
 * id. Each `runTransaction` body is one method: it stages its writes and
 * commits both or, when a write cannot apply, neither.
 */
module CodeService {
  import opened Wrappers
  import opened CodeGenerator
  import opened CodeLedger

  class Store {
    var users: map<UserId, UserRecord>
    var userCodes: map<UserId, CodeRecord>

    constructor (users: map<UserId, UserRecord>, userCodes: map<UserId, CodeRecord>)
      ensures this.users == users && this.userCodes == userCodes
    {
      this.users := users;
      this.userCodes := userCodes;
    }

    /** Both collections as one value. */
    function State(): Db
      reads this
    {
      Db(users, userCodes)
    }

    /**
     * `createUserCode`: generates a code from the random words, replaces the
     * user's code record and writes the code into the profile.
     */
    method CreateUserCode(userId: UserId, words: seq<u32>, now: Timestamp) returns (r: Result<string, LedgerError>)
      requires |words| == CodeLength
      modifies this
      ensures var t := CreateTx(old(State()), userId, Encode(words), now); State() == t.db && r == t.out
      ensures r.Success? ==> |r.value| == CodeLength && OverAlphabet(r.value)
      ensures old(CodesAgree(State())) ==> CodesAgree(State())
    {
      var code := GenerateSecureCode(words);
      var stagedCodes := userCodes[userId := CodeRecord(code, Some(now), None, userId)];
      if userId !in users {
        // updating a missing profile aborts the commit: nothing staged is written
        return Failure(NoUserToUpdate);
      }
      var stagedUsers := users[userId := WithFreshCode(users[userId], code, now)];
      users, userCodes := stagedUsers, stagedCodes;
      r := Success(code);
    }

    /**
     * `updateUserCode`: generates a code from the random words, merges it into
     * the user's code record (keeping the fields it does not set) and writes it
     * into the profile.
     */
    method UpdateUserCode(userId: UserId, words: seq<u32>, now: Timestamp) returns (r: Result<string, LedgerError>)
      requires |words| == CodeLength
      modifies this
      ensures var t := UpdateTx(old(State()), userId, Encode(words), now); State() == t.db && r == t.out
      ensures r.Success? ==> |r.value| == CodeLength && OverAlphabet(r.value)
      ensures old(CodesAgree(State())) ==> CodesAgree(State())
    {
      var code := GenerateSecureCode(words);
      var merged := if userId in userCodes
        then userCodes[userId].(code := code, updatedAt := Some(now), userId := userId)
        else CodeRecord(code, None, Some(now), userId);
      var stagedCodes := userCodes[userId := merged];
      if userId !in users {
        return Failure(NoUserToUpdate);
      }
      var stagedUsers := users[userId := WithFreshCode(users[userId], code, now)];
      users, userCodes := stagedUsers, stagedCodes;
      r := Success(code);
    }

    /**
     * `verifyUserCode`: reads the user's code record inside the transaction;
     * on an exact match marks the profile verified.
     */
    method VerifyUserCode(userId: UserId, enteredCode: string, now: Timestamp) returns (r: Result<bool, LedgerError>)
      modifies this
      ensures var t := VerifyTx(old(State()), userId, enteredCode, now); State() == t.db && r == t.out
      ensures old(CodesAgree(State())) ==> CodesAgree(State())
    {
      var verificationResult := false;
      if userId !in userCodes {
        return Failure(UserCodeNotFound);
      }
      var stored := userCodes[userId];
      if stored.code == enteredCode {
        if userId !in users {
          return Failure(NoUserToUpdate);
        }
        users := users[userId := users[userId].(hasVerifiedCode := Some(true), codeVerifiedAt := Some(now))];
        verificationResult := true;
      }
      r := Success(verificationResult);
    }

    /**
     * `getAllUsersWithCodes`: walks the code records and, for each one whose
     * profile exists, emits the profile with the code record's code.
     */
    method GetAllUsersWithCodes() returns (rows: seq<UserDoc>)
      ensures forall k :: 0 <= k < |rows| ==>
        rows[k].id in users && rows[k].id in userCodes && rows[k] == ListingRow(State(), rows[k].id)
      ensures forall j, k :: 0 <= j < k < |rows| ==> rows[j].id != rows[k].id
      ensures RowIds(rows) == userCodes.Keys * users.Keys
    {
      var usersMap := users;
      var pending := userCodes.Keys;
      rows := [];
      while pending != {}
        invariant pending <= userCodes.Keys
        invariant forall k :: 0 <= k < |rows| ==>
          rows[k].id in users && rows[k].id in userCodes - pending && rows[k] == ListingRow(State(), rows[k].id)
        invariant forall j, k :: 0 <= j < k < |rows| ==> rows[j].id != rows[k].id
        invariant RowIds(rows) == (userCodes.Keys - pending) * users.Keys
        decreases pending
      {
        var id :| id in pending;
        if id in usersMap {
          var row := UserDoc(id, usersMap[id].(uniqueCode := Some(userCodes[id].code)));
          assert RowIds(rows + [row]) == RowIds(rows) + {id} by {
            assert forall k :: 0 <= k < |rows| ==> (rows + [row])[k] == rows[k];
            assert (rows + [row])[|rows|] == row;
          }
          rows := rows + [row];
        }
        pending := pending - {id};
      }
    }

    /**
     * `getUserByEmail`: some profile whose email is `email`, with its id, or
     * null when there is none.
     */
    method GetUserByEmail(email: string) returns (r: Option<UserDoc>)
      ensures r.None? <==> forall u :: u in users ==> users[u].email != Some(email)
      ensures r.Some? ==> r.value.id in users && r.value.profile == users[r.value.id]
      ensures r.Some? ==> r.value.profile.email == Some(email)
    {
      if exists u :: u in users && users[u].email == Some(email) {
        var u :| u in users && users[u].email == Some(email);
        r := Some(UserDoc(u, users[u]));
      } else {
        r := None;
      }
    }
  }

  /**
   * The whole life of one code: issued, read back unverified, verified,
   * rotated to a different code, after which only the new code verifies.
   */
  lemma EndToEnd(db: Db, u: UserId, words1: seq<u32>, words2: seq<u32>, t1: Timestamp, t2: Timestamp, t3: Timestamp, t4: Timestamp, t5: Timestamp)
    requires u in db.users && u !in db.userCodes
    requires |words1| == CodeLength && |words2| == CodeLength && Encode(words1) != Encode(words2)
    ensures var x, y := Encode(words1), Encode(words2);
      var issued := CreateTx(db, u, x, t1);
      var verified := VerifyTx(issued.db, u, x, t2);
      var rotated := UpdateTx(verified.db, u, y, t3);
      && issued.out == Success(x) && |x| == CodeLength && OverAlphabet(x)
      && GetCodeInfo(issued.db, u) == Some(CodeInfo(Some(x), Some(t1), false, db.users[u].codeVerifiedAt))
      && verified.out == Success(true)
      && CheckCodeVerification(verified.db, u)
      && rotated.out == Success(y) && !CheckCodeVerification(rotated.db, u)
      && VerifyTx(rotated.db, u, x, t4) == Tx(rotated.db, Success(false))
      && VerifyTx(rotated.db, u, y, t5).out == Success(true)
  {
    var x, y := Encode(words1), Encode(words2);
    var issued := CreateTx(db, u, x, t1);
    VerifyActiveCode(issued.db, u, x, x, t2);
    var verified := VerifyTx(issued.db, u, x, t2);
    RotationInvalidatesOldCode(verified.db, u, y, x, t3, t4);
    RotationInvalidatesOldCode(verified.db, u, y, x, t3, t5);
  }
}
