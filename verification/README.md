# Code ledger of token-code-admin, modelled in Dafny

The model covers the code ledger in `src/services/codeService.js`. The ledger issues, rotates and verifies one secret code per user. Each user has two Firestore documents with the same id: a profile in `users` (`uniqueCode`, `hasVerifiedCode`, `codeGeneratedAt`, `codeVerifiedAt`, plus `displayName` and `email`) and a code record in `userCodes` (`code`, `createdAt`, `updatedAt`, `userId`).

- `generator.dfy` (module `CodeGenerator`) holds the code generator. It maps sixteen 32-bit random words onto the 70-symbol alphabet `A–Z a–z 0–9 !@#$%^&*` by `value % 70`. The method builds the code by appending one symbol per word, and it is proved equal to a specification function.
- `ledger.dfy` (module `CodeLedger`) treats both collections as one value `Db`, a pair of maps keyed by user id.
  - Each transaction is a function that returns the store afterwards together with the value returned or the error thrown. The transactions are `CreateTx`, `UpdateTx` and `VerifyTx`.
  - The module also holds the read-only projections `getCodeByUserId`, `getCodeInfo`, `checkCodeVerification` and the `getAllUsersWithCodes` row.
  - Lemmas about single transactions sit beside them.
- `history.dfy` (module `LedgerHistory`) runs arbitrary sequences of transactions and proves two things by induction. First, the profile's copy of a code always equals the code record's. Second, a user's verified flag is set exactly when some verification since the last issue matched the code that was active at that moment.
- `service.dfy` (module `CodeService`) holds the class `Store`, whose two fields are the two maps.
  - Each `runTransaction` body is one method. It stages both writes and commits both or neither, and its postcondition ties the new state to the `CodeLedger` function.
  - The method `getAllUsersWithCodes` walks the code records in a loop. The method `getUserByEmail` looks a profile up by email.
  - The module ends with the end-to-end lemma: issue, verify, rotate, then the old code fails and the new one succeeds.
- `wrappers.dfy` holds `Option` (JavaScript's `null`) and `Result` (a thrown error).

Four behaviours of the code are worth stating on their own:
- `getCodeInfo` takes `code` and `generatedAt` from the code record and never consults the profile's copy of the code or its `codeGeneratedAt`.
- `generatedAt` is the code record's `createdAt`, which only `createUserCode` writes, because `updateUserCode` merges in `updatedAt` instead. After a rotation the reported creation time therefore still names the first issue (`RotationKeepsReportedCreationTime`). A code first issued by `updateUserCode` reports none (`FirstIssueByUpdateHasNoCreationTime`).
- In `getCodeInfo`, `code || null` turns an empty stored code into `null`; `getCodeByUserId` returns it unchanged.
- Verification compares with plain `===` and distinguishes only two errors. A missing code record raises "User code not found". A match whose profile is missing makes `transaction.update` throw.

Errors are modelled as `LedgerError`:
- `NoUserToUpdate`: `transaction.update` on a missing `users` document, which aborts the whole transaction.
- `UserCodeNotFound`: the explicit throw in `verifyUserCode`.

## Model

| member | source | states |
|---|---|---|
| CodeGenerator.Encode | src/services/codeService.js:16-22 | the code has one symbol per random word, every symbol is in the alphabet, and symbol i is `chars[words[i] % 70]` |
| CodeGenerator.GenerateSecureCode | src/services/codeService.js:15-24 | the appending loop yields exactly `Encode(words)`: 16 characters, all drawn from the 70-symbol alphabet |
| CodeGenerator.EncodeDecode | src/services/codeService.js:16-22 | every string over the alphabet is produced by some words (its symbols' positions), so encoding loses no alphabet string |
| CodeGenerator.EveryCodeReachable | src/services/codeService.js:17-23 | every 16-symbol string over the alphabet is a code that some draw of 16 words produces |
| CodeLedger.CreateTx | src/services/codeService.js:58-85 | succeeds iff the profile exists; then both documents hold the returned code, the flag is false, the code record is exactly `{code, createdAt: now, userId}` and other users are untouched; on failure nothing changes |
| CodeLedger.UpdateTx | src/services/codeService.js:87-114 | as create, but the merged code record keeps its earlier `createdAt` and gains `updatedAt: now`; on failure nothing changes |
| CodeLedger.VerifyTx | src/services/codeService.js:116-147 | no code record: "User code not found" and no change; exact match with a profile: true, flag set, `codeVerifiedAt` stamped, codes untouched; match without a profile: throws, no change; mismatch: false and no change |
| CodeLedger.GetCodeByUserId | src/services/codeService.js:43-56 | the stored code when a code record exists, null otherwise |
| CodeLedger.GetCodeInfo | src/services/codeService.js:199-223 | null iff the profile is missing; code and `generatedAt` come from the code record (null when it is absent, and the code is null when empty); `verified` and `verifiedAt` come from the profile, with false as the default |
| CodeLedger.CheckCodeVerification | src/services/codeService.js:225-239 | true iff the profile exists and its flag is true, false for a missing profile; agrees with `getCodeInfo`'s `verified` |
| CodeLedger.ListingRow | src/services/codeService.js:165-172 | a listing row has the document id and every field of the profile (names, flag, both timestamps) except `uniqueCode`, which it takes from the code record |
| CodeLedger.TransactionsPreserveAgreement | src/services/codeService.js:62-140 | create, update and verify each keep, for every user with both documents, the profile's `uniqueCode` equal to the record's `code` |
| CodeLedger.IssueIsVisible | src/services/codeService.js:58-114 | after create or update, `getCodeByUserId` and `getCodeInfo` show the returned code and both verification views report false |
| CodeLedger.VerifyActiveCode | src/services/codeService.js:123-142 | with an issued code, verification returns true exactly for that code, and the user reads as verified exactly then |
| CodeLedger.RotationInvalidatesOldCode | src/services/codeService.js:91-139 | after `updateUserCode` writes `c2`, entering any `c1 != c2` returns false and changes nothing, and entering `c2` returns true |
| CodeLedger.WrongGuessIsIdempotent | src/services/codeService.js:129-142 | a wrong guess leaves the store as it was, so repeating it returns false again on the same store |
| CodeLedger.RotationResetsVerification | src/services/codeService.js:101-137 | a user verified by a matching verification is unverified again after a rotation |
| CodeLedger.RotationKeepsReportedCreationTime | src/services/codeService.js:94-215 | after create at t1 and update at t2, `getCodeInfo` reports `generatedAt` t1 while the profile records t2 |
| CodeLedger.FirstIssueByUpdateHasNoCreationTime | src/services/codeService.js:94-215 | a code record first written by `updateUserCode` has no `createdAt`, so `getCodeInfo` reports no `generatedAt` |
| LedgerHistory.StepFlag | src/services/codeService.js:73-137 | one transaction sets the flag false when it issues to the user, true when it is a matching verification of the user, and otherwise leaves it |
| LedgerHistory.RunKeepsUsers | src/services/codeService.js:58-147 | no sequence of ledger transactions creates or deletes a profile |
| LedgerHistory.RunPreservesAgreement | src/services/codeService.js:62-140 | every sequence of transactions from a consistent store ends in a consistent store (profile copy equals code record) |
| LedgerHistory.VerifiedFlagExact | src/services/codeService.js:58-147 | after any sequence of transactions a user's flag is true iff a verification matched the then-active code with no issue since (or it was true and nothing was issued) |
| CodeService.Store.CreateUserCode | src/services/codeService.js:58-85 | the generated code is written into both documents atomically (as `CreateTx`), has 16 alphabet symbols, and consistency is kept |
| CodeService.Store.UpdateUserCode | src/services/codeService.js:87-114 | the generated code is merged into the code record and written into the profile atomically (as `UpdateTx`), and consistency is kept |
| CodeService.Store.VerifyUserCode | src/services/codeService.js:116-147 | the transaction's effect and result are those of `VerifyTx`, and consistency is kept |
| CodeService.Store.GetAllUsersWithCodes | src/services/codeService.js:149-180 | exactly one row per id that has both a code record and a profile, no duplicates, each row the profile with the code record's code |
| CodeService.Store.GetUserByEmail | src/services/codeService.js:26-41 | null iff no profile has that email; otherwise the id and data of a profile whose email matches |
| CodeService.EndToEnd | src/services/codeService.js:58-147 | issue X (16 symbols), read back unverified, verify X, rotate to Y != X; afterwards X is rejected without effect and Y is accepted |

## Left out

- Firestore I/O, `async`/`await`, `Promise.all` and the contention retries of `runTransaction`: every transaction is one atomic step, and concurrency is not modelled. This hides one effect of a retry: `verifyUserCode` keeps `verificationResult` outside the transaction callback and only ever sets it to true, so a first attempt that matched and was aborted, followed by a retry that reads a rotated code, returns true although nothing was written.
- `window.crypto.getRandomValues`: the sixteen random words are a parameter. Their distribution is not modelled. Taking `value % 70` of a 32-bit word makes the first 46 symbols one preimage in about 61 million more likely than the other 24.
- `serverTimestamp()` and `.toDate()`: a timestamp is a number passed in as `now`, and `.toDate()` is the identity.
- `logLoginAttempt` in `codeService.js` and `loginService.js`, and every `console.error`: audit writes and logging that carry no state the ledger reads.
- `checkCodeVerification`'s `catch` returning false: read failures are not modelled.
- Document fields other than those named above: a profile's other fields, and an `id` field inside a profile, which the `{ id, ...data }` spread would let override the document id.
- CodeService.Store.GetAllUsersWithCodes: Firestore returns the code records in document-id order; the model emits the rows in an unspecified order.
- CodeService.Store.GetUserByEmail: when several profiles share an email, Firestore returns the first in document-id order; the model returns any one of them.
- The pages, components and `AuthContext.js`: user-interface state and a fixed-password gate that do not touch the ledger.
