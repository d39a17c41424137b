# Verified model of the telesrv tools

This project models the protocols and transformations behind a Telegram-compatible server's operator
console and maintenance tools, and proves what they keep over every run:

* the operator command runner and its last-manager guard, with login and sessions on the same table
  (`OperatorRequests`, `OperatorCommands`, `CommandEffects`, `CommandProgress`, `LastManager`, `Sessions`,
  `Usernames`, `Permissions`);
* idempotent OTP delivery under concurrency (`OtpDelivery`);
* Telegram Login signing-key and code-key rotation, over time, crash points and restarts (`KeyRotation`,
  `KeyDirectory`, `KeyHistory`);
* the offline blob migration, its range reader and the server's startup check (`BlobRange`, `BlobMigration`);
* keyset paging, LIKE escaping, Python bytes literals, seed metadata and backup checksum files
  (`KeysetPaging`, `LikePattern`, `PythonLiteral`, `SeedJson`, `Checksums`, over `GoStrings` and `Wrappers`).

`dafny verify dfyconfig.toml` checks everything.

## How to read it

**Operator commands.** A state is one committed database plus any number of open transactions; a step is one
statement of one transaction, so a run is an arbitrary interleaving with aborts, lost connections and
unacknowledged commits. Assumed of PostgreSQL: READ COMMITTED (a statement sees committed rows); a unique-key
insert and a row update wait for an uncommitted writer of the same key or row; a statement error aborts the
transaction; an advisory transaction lock is held to its end. A waiting statement is a step that is not enabled.
The log of commits is history, and the theorems tie the tables to it. A transaction begins with the request as
the route handlers and the runner prepare it (`OperatorCommands.Prepare`): texts trimmed, permissions normalised.

**OTP delivery.** The two critical sections are methods of a class that owns the receipt map; callers interleave
between them. Purged receipts stay on the heap for the callers that hold them.

**Keys.** Times are nanoseconds; stamps are whole seconds (section 5.6 of RFC 3339), and the published set is the
JWK Set of section 5 of RFC 7517. Every file-system call appends the disk to a history, so a property of all
history entries holds at every crash point. A rename is atomic, a file being written is unreadable until synced,
and where an operation fails is a parameter.

**Blobs.** GetRange may fail or return too little but never returns bytes that are not the object's; a put files
bytes under their own digest and leaves what is already there alone, right or wrong; object keys are their rank in
the database's collation, 0 being the empty key; which call fails, or where the run is cancelled, is a parameter. A
crash leaves one of the recorded states.

SHA-256, bcrypt and JSON are parameters (`Codec`, `Hashing`, the stored hash standing for the password), taken as
injective where a property needs it. Clocks, random key ids and provider answers are step or method parameters.

## What the code does that its documentation does not say

* Rows whose object key is empty are never migrated, because paging starts strictly above the empty string. The
  startup check accepts after a migration exactly when there were none (`BlobMigration.StartupAcceptsAfterMigration`).
* For a recorded size of zero the range reader reports end-of-file without asking the backend, so the read-back
  verifies nothing there (`BlobRange.DeliveredIsObject`). A finished migration of a safe table is safe exactly when
  no empty object had to move or no other bytes lay under the empty object's key (`BlobMigration.SafeExactly`).
* The last second of the retirement margin is lost to truncation. What every allowed window guarantees at every
  instant is the margin less one second and no more (`KeyRotation.GuaranteedMargin`); for one rotation the exact
  boundary is `KeyRotation.MarginBoundary`, and a token survives exactly when it expires before the stamp
  (`KeyRotation.TokenSurvivesExactly`).
* The `-algorithm` flag is upper-cased, so no value selects EdDSA (`KeyRotation.FlagSelects`).
* A code-key rotation that draws an id already in use replaces that secret; signing keys are protected by the
  exclusive create (`KeyDirectory.CodesNeverDropped`).
* A taken username is a statement error, so the whole command rolls back and leaves no row, while its dry run
  answers that it would work, as it does for a missing account (`OperatorCommands.FailedStatementLeavesNoRow`).
* A comment in migration 0207 says that disabling or editing an operator moves token_epoch; only a password
  change does. Edits take effect because each request re-reads the row (`Sessions.AdmittedExactlyWhenUnchanged`).

## Model

| member | source | states |
|---|---|---|
| `OperatorRequests.PreimageInjective` | cmd/telesrv-admin/admin_command_runner.go:73-81 | the NUL-framed fingerprint preimage determines action, parameters and password when the first two carry no NUL |
| `OperatorRequests.PreimageCollidesOnNulParams` | cmd/telesrv-admin/admin_command_runner.go:73-81 | the NUL-free condition is needed: a concrete collision without it |
| `OperatorRequests.ReplaysExactlyTheSameRequest` | cmd/telesrv-admin/admin_command_runner.go:159-177 | a reused command_id is replayed if and only if action, dry-run flag, actor, reason, parameters and password all equal the first request, however lossy the JSON decoding |
| `OperatorRequests.LossyParamsNeedTheFingerprint` | cmd/telesrv-admin/admin_command_runner.go:273-279 | without the fingerprint, two requests whose numbers decode alike would be taken for one |
| `OperatorCommands.StepShape` | cmd/telesrv-admin/admin_command_runner.go:140-232 | where a transaction stands decides what it has written: claim, outcome, write, finished row, audit row |
| `OperatorCommands.StepOwner` | cmd/telesrv-admin/admin_command_runner.go:151-158 | a claimed command_id is owned by one open transaction and is not committed yet; the advisory lock has one holder |
| `OperatorCommands.StepWrite` | cmd/telesrv-admin/admin_command_runner.go:289-382 | a pending row version is the committed row plus its change, and nobody else is writing that row |
| `OperatorCommands.NonCommitInv` | cmd/telesrv-admin/admin_command_runner.go:140-227 | every statement before commit, and every rollback, leaves the database and the history of commits as they are and keeps the whole invariant |
| `OperatorCommands.CommitInv` | cmd/telesrv-admin/admin_command_runner.go:207-232 | a commit publishes write, finished row and audit row together and keeps the whole invariant, no update lost |
| `OperatorCommands.RunInv` | cmd/telesrv-admin/admin_command_runner.go:105-233 | the invariant holds in every state of every run |
| `OperatorCommands.LogPrefix` | cmd/telesrv-admin/admin_command_runner.go:228-232 | commits are never undone: the history only grows |
| `OperatorCommands.CommittedExactlyOnce` | cmd/telesrv-admin/admin_command_runner.go:105-233 | over every interleaving: each command_id is executed at most once; no committed row is still running; each has exactly one audit row, equal to it; a write is committed exactly with a completed non-dry row; the account table is the initial one with exactly those writes |
| `OperatorCommands.RepliesAreTruthful` | cmd/telesrv-admin/admin_command_runner.go:159-255 | success is reported only for a committed execution of this request, a replay only for the identical committed request with its committed outcome, a conflict only for a different one |
| `OperatorCommands.FailedStatementLeavesNoRow` | cmd/telesrv-admin/admin_command_runner.go:316-322 | over every run: a command that passed its checks leaves no row exactly when its statement fails (name taken, epoch overflow), and then its transaction never commits and its caller gets an error; its dry run answers success in any case |
| `CommandEffects.ChecksExactly` | cmd/telesrv-admin/adminusers_api.go:170-186 | a body passes the checks if and only if its name has the allowed shape and is not the break-glass name in any case, its password is not blank and at most 72 bytes, and its list confers nothing outside the vocabulary, as its kind requires |
| `CommandEffects.CommandTakesEffect` | cmd/telesrv-admin/admin_command_runner.go:183-232 | over every run, on the fields of the rows: a body with a defect is recorded as failed with that defect, a dry run as completed, an update of a missing account as failed with not-found, each leaving the table alone; any other command that commits is recorded as completed and changes exactly one row exactly as the body asks (name, password, rights, state, epoch); one that clashes does not commit |
| `CommandEffects.WriteTakesEffect` | cmd/telesrv-admin/admin_command_runner.go:289-382 | a pending write, once merged, adds or changes one row as the body asks and no other |
| `CommandEffects.OperateAnswers` | cmd/telesrv-admin/adminusers_api.go:170-300 | the mutation answers refused, dry run, not-found, error or done exactly by the body's defects, the dry-run flag, the committed accounts and their names |
| `CommandEffects.GuardRefusesExactly` | cmd/telesrv-admin/admin_command_runner.go:410-436 | over every run the guard refuses if and only if a named operator acts, no other account is enabled with admins.manage or the wildcard, and the edited one would not be either; for an existing account, if and only if the table after the edit would have no manager |
| `CommandEffects.GuardRefusalCommits` | cmd/telesrv-admin/adminusers_api.go:230-240 | a refused edit is recorded as failed with that reason and leaves the table alone |
| `CommandEffects.RepeatAnswers` | cmd/telesrv-admin/admin_command_runner.go:159-177 | over every run a repeated command_id is answered with the stored outcome for the identical request and with a conflict for any other |
| `CommandProgress.NoDeadlock` | cmd/telesrv-admin/admin_command_runner.go:105-233 | over every run, while a transaction is unfinished some unfinished transaction can take its next statement: waits for command ids, the lock, rows and names never form a circle |
| `CommandProgress.AloneGoesOn` | cmd/telesrv-admin/admin_command_runner.go:105-233 | a transaction that is the only unfinished one is never kept waiting |
| `LastManager.StepKeepsGuards` | cmd/telesrv-admin/admin_command_runner.go:410-436 | what the guard saw stays true until its transaction ends, whatever the others commit |
| `LastManager.GuardWithoutLockIsNotEnough` | cmd/telesrv-admin/adminusers_api.go:336-345 | on one snapshot the guard alone lets two managers be demoted because of each other |
| `LastManager.StepKeepsManager` | cmd/telesrv-admin/admin_command_runner.go:387-436 | a step that removes the last manager is a commit of a break-glass demotion |
| `LastManager.LastManagerStands` | cmd/telesrv-admin/admin_command_runner.go:387-436 | over every run with no break-glass demotion in between, a state with a manager is followed only by states with one |
| `Sessions.AuthenticateLogin` | cmd/telesrv-admin/adminauth.go:50-98 | a named login is bound to an existing, enabled account of the given name with this password, and carries its name, epoch and rights as read; the break-glass name admits exactly the configured secret and yields exactly the configured rights |
| `Sessions.EpochsOnlyGrow` | cmd/telesrv-admin/admin_command_runner.go:363-382 | between any two states of a run the epoch grew by exactly the number of committed password changes |
| `Sessions.AdmittedExactlyWhenUnchanged` | cmd/telesrv-admin/security.go:236-291 | a named session is admitted exactly when its account is enabled now and its password was not changed since the login's credential read, and then with exactly the account's current rights |
| `Sessions.BreakGlassStands` | cmd/telesrv-admin/security.go:279-283 | the break-glass login admits exactly the configured secret, whatever the table says, and its session has exactly the configured rights at every later request |
| `Sessions.UneditedAlongRun` | cmd/telesrv-admin/admin_command_runner.go:332-382 | only an access edit changes rights and state, only a password change the credential, nothing the name, between any two states of a run |
| `Sessions.AccessEditStaysInForce` | cmd/telesrv-admin/adminusers_api.go:212-263 | from its commit until the next access edit, the account is enabled as asked and confers exactly the rights of the list in the request body, blanks, padding and duplicates included |
| `Sessions.PasswordStaysInForce` | cmd/telesrv-admin/admin_command_runner.go:363-382 | from its commit until the next one, no other password logs the account in |
| `Usernames.StepInsert` | cmd/telesrv-admin/admin_command_runner.go:289-327 | a pending account clashes in no case with a committed or pending one and is not the break-glass name |
| `Usernames.RunNames` | deploy/migrations/0207_admin_console_users.up.sql:36-40 | over every run names stay unique up to case, and none is the break-glass name |
| `Usernames.LoginFindsItsAccount` | cmd/telesrv-admin/adminusers.go:49-63 | in every reachable state an account's name in any case resolves to that account, and logs in exactly with its password while it is enabled |
| `Permissions.NormalisePermissions` | cmd/telesrv-admin/adminusers_api.go:92-110 | the loop yields the wildcard alone, or the distinct trimmed names in order of first occurrence |
| `Permissions.NewPanelPermissions` | cmd/telesrv-admin/security.go:385-402 | the loop resolves the raw list to its name set, wildcard flag and ordered list |
| `Permissions.ValidatePermissions` | cmd/telesrv-admin/security.go:181-199 | accepts exactly the lists within the assignable vocabulary and without the wildcard |
| `Permissions.NormaliseIdempotent` | cmd/telesrv-admin/adminusers_api.go:92-110 | normalising twice is normalising once |
| `Permissions.NormalisedShape` | cmd/telesrv-admin/adminusers_api.go:92-110 | a normalised list is trimmed, non-blank, duplicate-free, and the wildcard stands alone in it |
| `Permissions.HoldsAgree` | cmd/telesrv-admin/admin_command_runner.go:387-398 | for every raw list and permission: membership before normalising, after it, and in the SQL count predicate agree |
| `Permissions.HasExactly` | cmd/telesrv-admin/security.go:385-411 | a session holds a right if and only if it, or the wildcard, stands somewhere in its list, however padded |
| `Permissions.AssignableExactly` | cmd/telesrv-admin/security.go:181-199 | a normalised list validates if and only if the raw list confers nothing outside the vocabulary |
| `Permissions.DedupOrder` | cmd/telesrv-admin/adminusers_api.go:92-110 | names keep the order of their first occurrence |
| `GoStrings.TrimSplits` | cmd/telesrv-admin/adminusers_api.go:96-99 | a text is white space, its trimmed form, white space |
| `Permissions.ValidatedConfersOnlyAssignable` | cmd/telesrv-admin/security.go:181-199 | a normalised list that validates confers no right outside the vocabulary |
| `OtpDelivery.Application.EnterSection` | cmd/otpwebhook-example/main.go:324-355 | purging, lookup and install refine the registry's specification and its verdict |
| `OtpDelivery.Application.CompleteSection` | cmd/otpwebhook-example/main.go:359-364 | the provider's result is published on the receipt and done is closed; nothing else changes |
| `OtpDelivery.RunInv` | cmd/otpwebhook-example/main.go:316-366 | the registry and caller invariant holds in every state of every interleaving |
| `OtpDelivery.OneCallInFlight` | cmd/otpwebhook-example/main.go:349-357 | at most one provider call per delivery id is in flight, and its receipt is registered |
| `OtpDelivery.IncompleteStaysRegistered` | cmd/otpwebhook-example/main.go:325-329 | an incomplete receipt is never purged or replaced |
| `OtpDelivery.DoneClosedOnce` | cmd/otpwebhook-example/main.go:357-364 | done is closed exactly once for a completed receipt, and never before |
| `OtpDelivery.CompletedNeverChanges` | cmd/otpwebhook-example/main.go:339-343 | from any state to any later one completed receipts are unchanged, registered or purged |
| `OtpDelivery.SecondCallOnlyAfterExpiry` | cmd/otpwebhook-example/main.go:322-357 | a second provider call for an id starts only after the first completed and a caller read a clock at or past its expiry |
| `OtpDelivery.SharersAgree` | cmd/otpwebhook-example/main.go:330-347 | all callers answered by one receipt had the same id and body and get the same message id and error, whenever they return |
| `OtpDelivery.AnswersComeFromTheInstallersCall` | cmd/otpwebhook-example/main.go:357-365 | every delivery answer is what the provider returned to the receipt's installer |
| `OtpDelivery.ConflictExactlyOnDifferentBody` | cmd/otpwebhook-example/main.go:330-347 | over every run: from the start of a call until it is over and a clock has passed its expiry, every caller of its id waits for that very receipt if its body is the installer's and conflicts if not |
| `OtpDelivery.ConflictHasACause` | cmd/otpwebhook-example/main.go:330-334 | conversely, behind every conflict is an earlier call of the id with another body whose receipt is incomplete or not yet expired by this caller's clock |
| `OtpDelivery.ReceiptsAreInstalled` | cmd/otpwebhook-example/main.go:349-357 | every receipt was installed by a caller that went on to call the provider, with its id, body and expiry |
| `OtpDelivery.DeliversExactlyWhenExpired` | cmd/otpwebhook-example/main.go:325-357 | over every run a caller calls the provider if and only if every receipt its id ever had is completed and has expired by this caller's clock or left the map before |
| `OtpDelivery.PurgeLeavesNoneExpired` | cmd/otpwebhook-example/main.go:325-329 | after a caller was in, no completed receipt expired by its clock is left in the map |
| `OtpDelivery.LeavesOnlyExpired` | cmd/otpwebhook-example/main.go:325-329 | a receipt leaves the map only when completed and expired by the clock of the caller in the section |
| `OtpDelivery.NobodyIsStranded` | cmd/otpwebhook-example/main.go:335-365 | over every run a caller that has not returned can go on, or waits for a receipt whose installer can |
| `KeyRotation.ScanKeys` | cmd/telegramloginkeygen/main.go:187-213 | refused exactly for an unparsable stamp or not exactly one active key; otherwise the unexpired keys in order with the active one stamped |
| `KeyRotation.RotatesExactly` | cmd/telegramloginkeygen/main.go:188-219 | a rotated manifest ends with the new active key; the others are exactly the old ones not past their stamp, each as it was, but for the active key of the algorithm, which gets a whole-second stamp |
| `KeyRotation.RotationPrunes` | cmd/telegramloginkeygen/main.go:190-198 | no key past its stamp is in a rotated manifest |
| `KeyRotation.ActivesCounts` | cmd/telegramloginkeygen/main.go:200-213 | what is required to be one is the number of active keys of the algorithm |
| `KeyRotation.RotateKeepsSound` | cmd/telegramloginkeygen/main.go:177-219 | a rotation keeps one active key per algorithm, distinct ids and at most 32 keys |
| `KeyRotation.RotationsStaySound` | cmd/telegramloginkeygen/main.go:177-219 | so does every run of rotations |
| `KeyRotation.StampNeverChanges` | cmd/telegramloginkeygen/main.go:190-211 | over every run a retired key is never re-stamped and leaves the manifest only after its stamp has passed |
| `KeyRotation.TokenOutlivesRotation` | cmd/telegramloginkeygen/main.go:113-120 | over every run: a token signed while its key was active, or up to the margin less one second after retirement, finds its key published at every moment up to its expiry |
| `KeyRotation.ServedExactlyUntilDeadline` | cmd/telegramloginkeygen/main.go:190-211 | over every run, from its retirement on a key is served exactly at the instants before its stamp |
| `KeyRotation.TokenSurvivesExactly` | cmd/telegramloginkeygen/main.go:113-120 | over every run, a token finds its key at every moment up to its expiry if and only if it expires before the stamp of the rotation that retired the key |
| `KeyRotation.MarginBoundary` | cmd/telegramloginkeygen/main.go:205-208 | the exact last instant of covered signing after a rotation, for every window and every instant |
| `KeyRotation.GuaranteedMargin` | cmd/telegramloginkeygen/main.go:113-120 | signing d after a rotation is covered for every allowed window and instant if and only if d is at most the margin less one second |
| `KeyRotation.FullMarginIsNotEnough` | cmd/telegramloginkeygen/main.go:113-120 | with the smallest window, signing a full margin after the rotation outlives the key at every instant |
| `KeyRotation.FlagSelects` | cmd/telegramloginkeygen/main.go:69-73 | no flag value selects EdDSA; every other algorithm is selected by its name |
| `KeyDirectory.Directory.WriteExclusive` | cmd/telegramloginkeygen/main.go:343-363 | succeeds exactly on an unused path without a fault, and at every moment only that path differs |
| `KeyDirectory.Directory.WriteValidated` | cmd/telegramloginkeygen/main.go:307-341 | temporaries aside, every crash point shows the old disk until the last step, which shows the new one exactly if it validated and nothing failed |
| `KeyDirectory.RotationCrashSafe` | cmd/telegramloginkeygen/main.go:214-219 | key file first, manifest second: at every crash point each manifest is whole, its key files exist, and no key is lost |
| `KeyDirectory.RotatedIsWhole` | internal/app/telegramlogin/keyfiles.go:41-95 | the server's loader accepts every rotated manifest once the new key file is there |
| `KeyDirectory.WholeCanRotate` | cmd/telegramloginkeygen/main.go:177-220 | from a whole directory a rotation is possible if and only if the algorithm is supported, fewer than 32 keys are there and the drawn id is unused |
| `KeyDirectory.WholeCanRotateCodes` | cmd/telegramloginkeygen/main.go:222-231 | and a code rotation if and only if fewer than 16 keys are there |
| `KeyDirectory.RotateCodesExactly` | cmd/telegramloginkeygen/main.go:232-241 | the drawn id becomes active with the drawn secret, the ids are the old ones and it, every other secret is as before |
| `KeyDirectory.CodesNeverDropped` | cmd/telegramloginkeygen/main.go:222-242 | a code rotation loads, keeps every id, and keeps every secret exactly when the drawn id was unused (or drew the same secret) |
| `KeyDirectory.FirstIsSound` | cmd/telegramloginkeygen/main.go:138-149 | the first manifest has one active key per algorithm when the drawn ids differ |
| `KeyDirectory.Directory.RotateSigning` | cmd/telegramloginkeygen/main.go:177-220 | succeeds exactly when the manifest is rotatable, the key file name unused, the result loadable and no operation fails; then exactly two files change; every crash point is whole and shows the old manifest, the last step the new one |
| `KeyDirectory.Directory.RotateCode` | cmd/telegramloginkeygen/main.go:222-242 | succeeds exactly when the manifest is rotatable and loads afterwards and nothing fails; then one file changes, the drawn id is active with the drawn secret, and every other secret is as before; every crash point is whole and shows the old or, last, the new manifest |
| `KeyDirectory.Directory.Initialize` | cmd/telegramloginkeygen/main.go:128-175 | succeeds exactly in an uninitialised directory with distinct unused ids and no failing operation, and then leaves exactly the six promised files more; refuses an initialised directory untouched; every crash point is whole |
| `KeyDirectory.Directory.GenerateAll` | cmd/telegramloginkeygen/main.go:138-149 | succeeds exactly when the drawn ids differ and are unused and no operation fails, and then adds exactly one key file per algorithm; no crash point endangers anything |
| `KeyDirectory.Directory.Run` | cmd/telegramloginkeygen/main.go:85-126 | succeeds exactly when the lock is free and the command's own condition holds, and then applies exactly the command; a held lock touches nothing; the lock is released; a failed rotation leaves both manifests; every crash point is whole, keeps all keys, and shows the old signing manifest up to one point and from there the one the command makes |
| `KeyHistory.Live` | cmd/telegramloginkeygen/main.go:85-275 | any sequence of starts with any failures and kills: at every crash point each manifest is whole with existing key files, one active key per algorithm, at most 32 and 16 keys, no code key id dropped; and the signing manifests shown form, in order, one chain of rotations with never-reused ids |
| `KeyHistory.ChainGrows` | cmd/telegramloginkeygen/main.go:214-219 | the manifest a command puts in place continues the chain, its new id differing from every id of every earlier manifest |
| `KeyHistory.StampStands` | cmd/telegramloginkeygen/main.go:190-211 | across failures and kills a retired key is never re-stamped and is gone only after a rotation at or past its stamp |
| `KeyHistory.RetiredServedExactly` | cmd/telegramloginkeygen/main.go:190-219 | across failures and kills every later crash point serves a retired key exactly at the instants before its stamp |
| `KeyHistory.TokenStands` | cmd/telegramloginkeygen/main.go:113-120 | across failures and kills a token signed up to the margin less one second after retirement finds its key served at every later crash point up to its expiry |
| `BlobRange.Reader.Read` | cmd/blobmigrate/main.go:200-225 | the buffer is the object's slice at the offset; a non-empty read makes progress and returns exactly the next bytes; a short or wrong-total range is an error and nothing else is; end-of-file exactly at the recorded size |
| `BlobRange.CopyAll` | cmd/blobmigrate/main.go:187-225 | for every sequence of buffer sizes the bytes before end-of-file are exactly the object; a failure points to a rejected range |
| `BlobRange.DeliveredIsObject` | cmd/blobmigrate/main.go:204-207 | draining gives the object exactly when the recorded size is positive or the object is empty |
| `BlobRange.EqualBytes` | cmd/blobmigrate/main.go:227-236 | the constant-time comparison is equality |
| `BlobMigration.PageStep` | internal/store/postgres/blob_migration.go:22-44 | each page entry is the least remaining key above its predecessor |
| `BlobMigration.PageFull` | internal/store/postgres/blob_migration.go:31-43 | a page is as long as the limit and the remaining keys allow |
| `BlobMigration.ConsistentExactly` | internal/store/postgres/blob_migration.go:50-80 | a key is consistent if and only if one size and one 32-byte digest, whose name it is, describe all its rows |
| `BlobMigration.PageIgnoresBelow` | cmd/blobmigrate/main.go:82-116 | removing keys at or below the cursor never changes the next page |
| `BlobMigration.Migration.ListPage` | internal/store/postgres/blob_migration.go:44-83 | a page is returned exactly when every key on it has one size, one digest and the digest's name, and then describes those keys in order |
| `BlobMigration.Migration.MigrateObject` | cmd/blobmigrate/main.go:158-185 | rows and source untouched, destination only grows, by nothing but a copy of the source object; success means the destination holds the recorded bytes if and only if the size is positive or the object there is empty; it succeeds when nothing fails and no other bytes lie under the key |
| `BlobMigration.Migration.MigrateAndMove` | internal/store/postgres/blob_migration.go:87-111 | rows are relabelled exactly on success; in every state in which they are, the copy had been read back, whatever lay at the destination before; every state is safe unless an empty object meets a stale entry; every row stays, with its key, size and digest, and only the backend of the moved keys' source rows changes |
| `BlobMigration.Migration.MoveRows` | internal/store/postgres/blob_migration.go:87-111 | every row stays, with its key, size and digest; the backend changes to the destination for exactly the source rows of the object |
| `BlobMigration.Migration.RunPage` | cmd/blobmigrate/main.go:94-116 | the inner loop visits a page in order with exact totals; rows moved are exactly those of the objects completed, each read back before; the destination gains nothing but copies; every row stays, with its key, size and digest, and only the backend of the moved keys' source rows changes |
| `BlobMigration.Migration.Run` | cmd/blobmigrate/main.go:82-126 | whatever fails wherever, and whatever the destination held: rows are the initial ones with a prefix of the visited keys moved, in no state on the way is a row moved that was not read back, every state is safe (given no stale entry for an empty object), and the migration is ready to run again; on success every non-empty source key was visited once in order with exact totals, the destination is exactly filled up with the missing copies, safety and the startup check hold if and only if their conditions do; a fault-free run succeeds when no other bytes lie under the keys, and otherwise does not; a dry run changes nothing; every row stays, with its key, size and digest, and only the backend of the moved keys' source rows changes |
| `BlobMigration.Migration.RunAgain` | cmd/blobmigrate/main.go:82-126 | stopped anywhere and run again without failures: rows, source and destination are exactly those of one uninterrupted run, every row still there with its key, size and digest |
| `BlobMigration.ResumeReachesSameState` | cmd/blobmigrate/main.go:88-116 | the rows and the destination a rerun reaches from any interrupted state equal those of one run from the start |
| `BlobMigration.SafeExactly` | cmd/blobmigrate/main.go:158-185 | a finished migration of a safe table leaves a safe one only if no empty object moved or no other bytes lay under the empty key |
| `BlobMigration.CleanBefore` | cmd/blobmigrate/main.go:174-184 | a run that succeeded found no other bytes under the keys of the non-empty objects it moved |
| `BlobMigration.RequireConfiguredBackend` | cmd/telesrv/blob_storage.go:22-41 | the loop collects exactly the other backends with rows, and accepts when there are none |
| `BlobMigration.StartupAcceptsAfterMigration` | cmd/telesrv/blob_storage.go:22-41 | after a migration the check accepts the destination if and only if only the two backends were present and no source row has an empty key |
| `KeysetPaging.AfterIsStrictTotalOrder` | cmd/telesrv-admin/readstore.go:2035-2085 | the cursor predicates are strict succession in one total order |
| `KeysetPaging.CursorResumes` | cmd/telesrv-admin/readstore.go:2035-2085 | the rows after the k-th of the filtered listing are exactly what its user id as cursor selects, in order |
| `KeysetPaging.ListPage` | cmd/telesrv-admin/readstore.go:2086-2105 | of limit+1 fetched rows the first limit are returned, and more is reported exactly when the extra row was there |
| `KeysetPaging.StarsQuery` | cmd/telesrv-admin/readstore.go:2229-2270 | the Stars query, whose rows have one sort key, selects the same rows in the order (balance desc, user id asc) |
| `KeysetPaging.Walk` | cmd/telesrv-admin/server.go:3115-3118 | for every limit, following the cursor yields exactly the rows of the table that pass the filter, each once, by higher first key, then higher second key, then lower user id, and stops |
| `LikePattern.ThreeReplacementsAreOneEscape` | cmd/telesrv-admin/readstore.go:270-274 | the three whole-string replacements equal escaping each character once |
| `LikePattern.SearchMatchesExactlyPrefixes` | cmd/telesrv-admin/readstore.go:270-274 | for every query and text, LIKE matches exactly when the query is a prefix |
| `LikePattern.UnescapedSearchOvermatches` | cmd/telesrv-admin/readstore.go:3170-3174 | without escaping an underscore matches another character |
| `LikePattern.LoweredSearchMatchesPrefixes` | cmd/telesrv-admin/readstore.go:3174-3185 | lower-casing after escaping gives exactly prefix search for the lower-cased query |
| `PythonLiteral.PythonBytesLiteralToHex` | cmd/stickerseeddeploy/main.go:256-320 | the index loop computes the literal's decoding, its rejections and its pass-through |
| `PythonLiteral.ReadEscape` | cmd/stickerseeddeploy/main.go:275-318 | one escape is consumed exactly as the decoding says, hex, octal or single character |
| `PythonLiteral.ReprRoundTrip` | cmd/stickerseeddeploy/main.go:256-320 | for every byte sequence and either quote style, decoding the repr gives exactly its hex |
| `PythonLiteral.HexExactly` | cmd/stickerseeddeploy/main.go:319-319 | two lower-case digits per byte, the high one first |
| `PythonLiteral.EscapeDecodes` | cmd/stickerseeddeploy/main.go:276-292 | each escape letter stands for its byte |
| `PythonLiteral.OctalDecodes` | cmd/stickerseeddeploy/main.go:302-314 | three octal digits stand for their value, and are rejected above 255 |
| `PythonLiteral.HexIsNotLiteral` | cmd/stickerseeddeploy/main.go:256-262 | hex text is never itself taken for a literal |
| `SeedJson.NormaliseSeed` | cmd/stickerseeddeploy/main.go:213-254 | the recursive rewrite computes the tree's normal form and fails exactly when that does |
| `SeedJson.NormaliseIdempotent` | cmd/stickerseeddeploy/main.go:213-254 | a tree that normalises is left unchanged by a second pass |
| `SeedJson.NormaliseRewrites` | cmd/stickerseeddeploy/main.go:213-254 | at every depth: no file_reference_hex is left, file_reference carries its value, a repr under "bytes" has become the hex of what it stands for, and nothing else has changed |
| `Checksums.WriteChecksums` | cmd/gramsrv-backup/manifest.go:160-170 | the builder loop writes the file text |
| `Checksums.ReadChecksums` | cmd/gramsrv-backup/manifest.go:173-200 | the line loop computes the parse, its errors included |
| `Checksums.WrittenFormat` | cmd/gramsrv-backup/manifest.go:161-164 | one line per artifact in order: digest, two spaces, path, newline |
| `Checksums.ParsedIsWellFormed` | cmd/gramsrv-backup/manifest.go:180-196 | whatever the parser accepts has a 64-digit hex digest and a non-empty path without newline or trailing space |
| `Checksums.ChecksumRoundTrip` | cmd/gramsrv-backup/manifest.go:160-200 | reading back a written file returns the same list if and only if it is non-empty and all its entries are well formed |

## Left out

- Session cookies: signing, verification, expiry and CSRF checks; the model starts at verified claims.
- HTTP handlers, request validation of the OTP webhook, proxies and JSON envelopes: thin relays, only easy members.
- Hashing, HMAC, bcrypt, zstd, tar and JSON encoding internals: abstract parameters.
- Usernames.LoginFindsItsAccount: case folding is that of ASCII letters, the only ones an operator name may have; a login name with other letters that the database's collation would fold to them is not modelled.
- Unicode versions: decimal digits in operator names are those of Unicode 15.0.
- The S3 store's refusal of an existing object of another size: it counts as a failing put.
- Permissions.ValidatePermissions: the error text naming the offending permission is not modelled.
- OtpDelivery.RunInv: a provider call that panics is not modelled; in the source it would leave its receipt incomplete for good.
- KeyHistory.Live: the directory entry itself is taken as durable after a rename, and removing a temporary or half-written file is taken to succeed.
- BlobMigration.Migration.Run: concurrent writers of the metadata table are not modelled; the tool requires the server to be stopped.
- BlobMigration.RequireConfiguredBackend: the order and text of the reported mismatches are not modelled.
- LikePattern.LoweredSearchMatchesPrefixes: trimming, the leading "@" and the numeric id of the search terms are not modelled; lower-casing is any map that fixes the metacharacters and maps nothing else to them.
- SeedJson.NormaliseSeed: maps and lists are rebuilt as values, so aliasing between subtrees is not modelled.
- PythonLiteral.ReprRoundTrip: claims nothing about escapes that repr never writes beyond what the decoder does with them.
- Telegram network fetchers, the admin API relays, plain SQL projections, the account and channel cursors that pass timestamps through floating point, the backup tool's process control and file walks, the documentation generator and status sampling: clients or I/O without a hard property.
