# EzOpenPN: a verified model

EzOpenPN is a small VPN panel. A control process keeps profiles in SQLite, tells a running Xray process
which users to let in, and asks Hysteria to drop connections. A supervisor in the runtime container owns
the Xray process. An installer makes and restores backups and cleans logs, and a helper exports the
certificate. This project models the parts of it where several steps, several threads or failures in
between have to add up, and proves what they add up to, for every input, run and point of failure.

`dafny verify dfyconfig.toml` checks everything.

## Structure

Profiles (`control/src/ezopenpn/profiles`):

- `ProfileStore` is the repository's transactions on rows, as functions.
- `ProfileProtocol` is the control protocol as a state machine: one step for each repository
  transaction, each call into Xray, Hysteria or the supervisor, and each local computation that can
  raise. A call returns, or raises before or after its effect; a transaction commits, refuses, or raises
  without effect.
- `ProfileInvariants`, `ProfileSafety` and `ProfileUserIds` prove what every step keeps.
- `ProfileSystem` adds threads, the lock, child exits at any moment and kills of the control process, and
  states the results about whole runs; `ProfileExamples` has a run that shows where one of them ends.
- `ProfileRepositories`, `ProfileReconcilers` and `ProfileCoordinators` are the three classes as they
  execute, with fields changed in place and the source's loops. Each coordinator method carries a
  journal, a ghost path through the protocol; its contract says that it ran from the protocol's first
  statement to its last (`Executed`), so that the results about runs are about this code.

The rest, one module or two for each source file: `Supervisor`, `LoginThrottle`, `AdminSessions`,
`Readiness`, `CertDiscovery` and `CertExport`, `LogRedaction`, `TreeReplacement`, and the backup archives
in `BackupPaths`, `BackupManifest`, `BackupArchives`, `BackupCreation` and `BackupRestore`, with an example
in `BackupExamples`. `Arithmetic`, `Ordering` and `Wrappers` are shared.

Methods are proved against specification functions or predicates; the lemmas say what these mean. What
the environment decides (whether a call fails, what a select receives, when the clock moves) is
nondeterministic in the methods and an argument of the functions. Its failures are counted and the calls
made on it recorded, so that the contracts can say exactly when an operation succeeds and what it has
called by then. Times are integers.

## What turned out to need care

- A revoked id stays out until an enable of its profile, or a create that drew the same id and does not
  find it taken, *enters* the lock. An enable called earlier that waits for the lock may let it in again
  right after (`WaitingEnableReadmits` is such a run).
- Reconciliation never succeeds while the runtime holds an extra id the Xray client refuses as malformed:
  `remove_user` raises before it calls. `RuntimeReconciler.Run` has the exact condition;
  `MalformedExtraNeverAccepted` and `MalformedExtraExample` show the failing case.
- A process killed in the middle of an operation counts as an operation that raised
  (`StrayUsersAreBlamed`).
- `healthy` in the supervisor stays true for the moment between the receipt of an exit and the statement
  that stores false (`HealthyForAMoment`). No other statement comes between them (`HealthIsTruthful`).
- `_copy_tree` is not all-or-nothing for an exception between `os.replace(destination, old)` and
  `moved_old = True`: the handler does not roll back and the `finally` block then removes the old tree
  (`LosesBothTrees`). `AllOrNothing` states that this is the only such point. Between `mkdtemp` and the
  `try` an exception leaves the temporary directory behind.
- A stored value that is part of the word "redacted", such as "red", is not removed from a log
  (`PartOfTheMarkerStays`). For values without angle brackets that is the only exception (`GoneExactly`).
- `create_archive` can write archives that `validate_and_extract` refuses. `AcceptedExactly` has the four
  conditions that separate them; one file with a backslash in its name is enough (`BackslashIsRefused`),
  and `CreatedButNeverAccepted` has such an installation.
- A record path that ends in a slash passes the manifest checks, but the member lookup drops the slash, so
  validation ends with an exception other than `ArchiveError` or with a collision
  (`TrailingSlashIsRefused`).
- The reading of archive names follows `PurePosixPath`: empty components and single dots are dropped, so
  two different names can stand for one file. The exclusive creation of each file catches that.

## Assumptions

Digests of profile secrets are injective. JSON and health records survive encoding and decoding. The
fingerprint in the old health record is not that of the new certificate. Case folding does not affect
white space, and within ASCII the tables are the usual ones. Each database transaction commits as a whole
or has no effect. A remote call has taken effect, if ever, by the time it returns. Clocks do not go back
where a statement says so.

## Model

| member | source | states |
|---|---|---|
| `ProfileSystem.MutualExclusion` | control/src/ezopenpn/profiles/coordinator.py:35-43 | At most one thread is inside the coordinator in any reachable state, and it is the lock holder. |
| `ProfileSystem.EveryStateSound` | control/src/ezopenpn/profiles/coordinator.py:167-269 | In every reachable state of every run rows have their usual shape and the lock holder's statement and local values fit both stores. |
| `ProfileSystem.RevokedStaysOut` | control/src/ezopenpn/profiles/coordinator.py:193-226 | Once a disable or delete returned normally, every runtime id without an ACTIVE profile is absent from the runtime and stays absent, whatever other threads, failing calls, child exits and crashes do, until an enable of its profile, or a create that drew the id and does not find it taken, enters the lock. |
| `ProfileSystem.DisabledStaysOut` | control/src/ezopenpn/profiles/coordinator.py:193-226 | The same for the runtime id of the profile that was disabled, which is stored DISABLED when the call returns. |
| `ProfileSystem.StoredStaysOut` | control/src/ezopenpn/profiles/coordinator.py:193-226 | While the disabled profile stays stored, only an enable of it that enters the lock can let its id in again; a create that draws the same id cannot. |
| `ProfileSystem.EveryUserAccounted` | control/src/ezopenpn/profiles/coordinator.py:147-258 | At any moment a runtime user belongs to an ACTIVE profile, or to the operation now running, or to one that was aborted since the last cleaning. |
| `ProfileSystem.StrayUsersAreBlamed` | control/src/ezopenpn/profiles/coordinator.py:147-258 | Whenever the lock is free, a runtime user without an ACTIVE profile is the trace of an operation on its profile that raised without a healing reconciliation having succeeded, or was killed, after the last successful reconciliation, disable or delete, or was there from the start. |
| `ProfileSystem.AgreementHolds` | control/src/ezopenpn/profiles/coordinator.py:167-269 | From agreement, while nothing raises, no child exits by itself and nothing crashes, the runtime holds exactly the ACTIVE profiles with their own user ids whenever the lock is free. |
| `ProfileSystem.ReconcileRestores` | control/src/ezopenpn/profiles/reconcile.py:90-129 | A successful reconciliation leaves only ids of ACTIVE profiles whatever happened before, including a kill after any step, and all of them if no child exited meanwhile. |
| `ProfileSystem.UserIdsStayRight` | control/src/ezopenpn/profiles/coordinator.py:167-269 | In every run, whatever raises, exits or is killed, a runtime user whose id is an ACTIVE profile's carries that profile's own user id, if that held at the start. |
| `ProfileSystem.ReconcileAgrees` | control/src/ezopenpn/profiles/reconcile.py:90-129 | If the user ids were right at the start of the run, a successful reconciliation without a child exit leaves exactly the ACTIVE profiles, each with its own user id. |
| `ProfileSystem.RowsStayWellKept` | control/src/ezopenpn/profiles/repository.py:199-206 | In every reachable state disabled_at is set exactly in DISABLED, error codes only in ERROR or DISABLED, and runtime ids are unique. |
| `ProfileSystem.RowHistory` | control/src/ezopenpn/profiles/repository.py:23-28 | Each row's history starts in PENDING and follows the transition table; only the commit of create or enable makes a row ACTIVE. |
| `ProfileSystem.RequestsStayLegal` | control/src/ezopenpn/profiles/coordinator.py:147-245 | No running operation ever asks for a transition that set_state would refuse. |
| `ProfileSystem.DeniedUntilCommitted` | control/src/ezopenpn/profiles/coordinator.py:187-226 | A profile that is not ACTIVE stays so, through every later step of the disable too, until an enable or create of it commits. |
| `ProfileSystem.CommitFollowsAdd` | control/src/ezopenpn/profiles/coordinator.py:171-174 | A thread about to commit ACTIVE has had a normal return of add_user for that runtime id earlier in the same operation, with nothing in between. |
| `ProfileSystem.NoActiveWithoutAdd` | control/src/ezopenpn/profiles/coordinator.py:235-238 | No step makes a profile ACTIVE unless add_user for its own runtime id returned normally before in the same operation. |
| `ProfileInvariants.StepKeepsInv` | control/src/ezopenpn/profiles/coordinator.py:167-269 | Every statement of every operation, under every outcome of its call, keeps the protocol invariant. |
| `ProfileInvariants.ChildExitKeepsInv` | control/src/ezopenpn/integrations/xray.py:116-156 | So does a child exit at any moment, which empties the runtime. |
| `ProfileInvariants.ActiveRecordsExact` | control/src/ezopenpn/profiles/reconcile.py:93-97 | The active records are exactly the ACTIVE rows of the listing. |
| `ProfileInvariants.DesiredUsersExact` | control/src/ezopenpn/profiles/reconcile.py:98-101 | `desired` exists exactly when all material decrypts, and then has exactly the active ids with their user ids. |
| `ProfileInvariants.ListedDesired` | control/src/ezopenpn/profiles/reconcile.py:93-103 | For any listing of all rows, the desired users are the ACTIVE ids with their own user ids. |
| `ProfileSafety.BarredStep` | control/src/ezopenpn/profiles/coordinator.py:213-219 | No step re-adds an id that is cut off, in particular no re-add or reconciliation acts on a stale ACTIVE snapshot. |
| `ProfileSafety.StrayStep` | control/src/ezopenpn/profiles/coordinator.py:167-258 | No step makes a runtime user stray: it is active, or the running operation's own, or was stray before. |
| `ProfileSafety.StepOnCourse` | control/src/ezopenpn/profiles/coordinator.py:167-258 | Every step of an operation that can still return normally keeps the two stores in the relation its position calls for. |
| `ProfileSafety.StepCovered` | control/src/ezopenpn/profiles/reconcile.py:110-121 | During a reconciliation every desired id is present or still to be added. |
| `ProfileSafety.StepLegalRows` | control/src/ezopenpn/profiles/repository.py:179-207 | One step moves at most one row, along the transition table, and never changes its runtime id or user id. |
| `ProfileSafety.StepTouchesOnlySubject` | control/src/ezopenpn/profiles/coordinator.py:147-258 | No step touches a row other than the operation's own. |
| `ProfileSafety.SurveyOnCourse` | control/src/ezopenpn/profiles/reconcile.py:102-105 | A reconciliation that starts in agreement finds both differences empty. |
| `ProfileUserIds.StepIsCorrect` | control/src/ezopenpn/profiles/coordinator.py:167-269 | Every statement of every operation, under every outcome of its call, keeps the user ids behind ACTIVE ids right; before the commit the added user is the profile's own. |
| `ProfileExamples.WaitingEnableReadmits` | control/src/ezopenpn/profiles/coordinator.py:193-245 | A run in which an enable, called while the disable runs, waits for the lock and lets the id in again after the disable returned, although nothing is called afterwards. |
| `ProfileRepositories.SubscriptionLookupExact` | control/src/ezopenpn/profiles/repository.py:137-152 | A linear scan for a token and the digest lookup agree for every token and profile. |
| `ProfileRepositories.HysteriaLookupExact` | control/src/ezopenpn/profiles/repository.py:154-177 | The same for Hysteria secrets and their prefixed digests. |
| `ProfileRepositories.KindsAreSeparate` | control/src/ezopenpn/profiles/types.py:9-19 | The prefixed value of a Hysteria secret, presented as a subscription token, finds nothing. |
| `ProfileRepositories.InsertKeepsLookups` | control/src/ezopenpn/profiles/repository.py:93-109 | Inserting a profile keeps: exactly two lookup rows for each stored profile, its own digests, and no others. |
| `ProfileRepositories.DeleteKeepsLookups` | control/src/ezopenpn/profiles/repository.py:239-242 | So does deleting one. |
| `ProfileStore.LegalTransitions` | control/src/ezopenpn/profiles/repository.py:23-28 | The transition table, pair by pair. |
| `ProfileProtocol.WellFormedExactly` | control/src/ezopenpn/integrations/hysteria.py:8-29 | The ids the clients accept are the prefix and 26 letters of the base32 alphabet, as they are drawn. |
| `ProfileRepositories.ProfileRepository.FindBySubscriptionToken` | control/src/ezopenpn/profiles/repository.py:137-152 | In every reachable state a token finds a profile iff it is that profile's own. |
| `ProfileRepositories.ProfileRepository.FindByHysteriaSecret` | control/src/ezopenpn/profiles/repository.py:154-177 | A Hysteria secret finds a profile iff it is that profile's own. |
| `ProfileRepositories.ProfileRepository.AuthorizeHysteria` | control/src/ezopenpn/web/routes/hysteria_auth.py:51-62 | Access is granted exactly for the secret of an ACTIVE profile, with that profile's runtime id. |
| `ProfileRepositories.ProfileRepository.SubscriptionProfile` | control/src/ezopenpn/profiles/links.py:205-208 | A subscription read is answered exactly for the token of an ACTIVE profile. |
| `ProfileRepositories.ProfileRepository.InsertPending` | control/src/ezopenpn/profiles/repository.py:82-111 | Adds the row and both lookup rows, or changes nothing; it is refused exactly for a taken id, runtime id or secret. |
| `ProfileRepositories.ProfileRepository.Get` | control/src/ezopenpn/profiles/repository.py:113-125 | Returns the stored row; ProfileNotFound only if there is none. |
| `ProfileRepositories.ProfileRepository.List` | control/src/ezopenpn/profiles/repository.py:127-135 | Lists every stored profile and no other. |
| `ProfileRepositories.ProfileRepository.SetState` | control/src/ezopenpn/profiles/repository.py:179-207 | Writes exactly the new state, the error code in ERROR only and the time in DISABLED only, of one row, or changes nothing; it is refused exactly for an unknown profile or an illegal transition. |
| `ProfileRepositories.ProfileRepository.SetRuntimeError` | control/src/ezopenpn/profiles/repository.py:209-229 | Stores the code beside the state, or changes nothing. |
| `ProfileRepositories.ProfileRepository.DeleteLocal` | control/src/ezopenpn/profiles/repository.py:231-251 | Removes the row and exactly its two lookup rows, or nothing. |
| `ProfileReconcilers.RuntimeReconciler.Run` | control/src/ezopenpn/profiles/reconcile.py:90-129 | Self-stabilising from any runtime contents: without an error and without a child exit the ids equal the ACTIVE ids, `added` and `removed` are the two differences, sorted and duplicate-free, `restarted` iff something was removed; undecryptable material leaves the runtime untouched. Without a child exit it succeeds exactly when neither the database nor a client fails, all material decrypts and the client accepts every id it is given, and then the calls were: list, remove the extra ids, and restart, wait and add all, or add the missing ids. After a restart, or if they were right before, the user ids are the profiles' own. |
| `ProfileReconcilers.RuntimeReconciler.Converge` | control/src/ezopenpn/profiles/reconcile.py:102-127 | The part after the desired users are known, with the same exact success condition and the same promise about user ids. |
| `ProfileReconcilers.RuntimeReconciler.RemoveExtra` | control/src/ezopenpn/profiles/reconcile.py:107-108 | Removes the extra ids one by one, and completes only if every one is well formed. |
| `ProfileReconcilers.RuntimeReconciler.AddAll` | control/src/ezopenpn/profiles/reconcile.py:114-121 | Adds the ids one by one; if it completes without a child exit every desired id is present. |
| `ProfileReconcilers.PathKeepsInv` | control/src/ezopenpn/profiles/coordinator.py:167-269 | Every state on every path of the protocol satisfies the invariant. |
| `ProfileReconcilers.AcceptedPlan` | control/src/ezopenpn/integrations/xray.py:116-145 | The ids a reconciliation calls the client with are acceptable exactly when those of the two sets are. |
| `ProfileReconcilers.MalformedExtraNeverAccepted` | control/src/ezopenpn/integrations/xray.py:136-145 | No situation with an extra id that the client refuses is one in which a reconciliation can succeed. |
| `ProfileReconcilers.Decrypts` | control/src/ezopenpn/profiles/reconcile.py:98-101 | The desired users can be computed exactly when the material of every ACTIVE profile decrypts. |
| `ProfileCoordinators.ProfileCoordinator.Create` | control/src/ezopenpn/profiles/coordinator.py:167-185 | What it executes is a run of the protocol from first to last statement. Unless the database fails: InvalidName for an invalid name, else ProfileConflict if an id or a secret is taken, else a normal return exactly when the material decrypts, the client accepts the id, the links can be built and no client fails, else ProvisioningFailed with the code in the row. A normal return means ACTIVE under its id and runtime id. |
| `ProfileCoordinators.ProfileCoordinator.Enable` | control/src/ezopenpn/profiles/coordinator.py:228-245 | Likewise: ProfileNotFound, refusal of an ACTIVE profile before any effect, else a normal return exactly when material, id, links and clients allow it, else EnableFailed with the code in the row; no other row changes. |
| `ProfileCoordinators.ProfileCoordinator.Disable` | control/src/ezopenpn/profiles/coordinator.py:193-226 | Likewise: unless the database fails, ProfileNotFound if not stored, else a normal return exactly when the clients accept its id, every other ACTIVE profile can be re-added and no client fails, else RevocationFailed with the code in the row. A normal return means DISABLED as of a moment within the call, every phase and re-addition was called in order, and only ids of ACTIVE profiles are in the runtime. |
| `ProfileCoordinators.ProfileCoordinator.Delete` | control/src/ezopenpn/profiles/coordinator.py:247-258 | Likewise, with the same exact answer as disable; a normal return means the row and nothing else is gone, and only ids of ACTIVE profiles are in the runtime. |
| `ProfileCoordinators.ProfileCoordinator.Reconcile` | control/src/ezopenpn/profiles/coordinator.py:260-269 | Likewise; the health snapshot is ready iff the result has no error, which it has exactly under the conditions of the reconciler; then, without a child exit, the ids equal the ACTIVE ids. |
| `ProfileCoordinators.ProfileCoordinator.MarkError` | control/src/ezopenpn/profiles/coordinator.py:147-159 | Stores the error beside DISABLED or moves the row to ERROR, unless the database fails, swallowing every exception, along the protocol; no other row changes. |
| `ProfileCoordinators.ProfileCoordinator.PrepareDisabled` | control/src/ezopenpn/profiles/coordinator.py:187-191 | DISABLED is committed, by way of ERROR from PENDING, before any call into the runtime, exactly if the profile is stored and the database works, and at a time within the call. |
| `ProfileCoordinators.ProfileCoordinator.Revoke` | control/src/ezopenpn/profiles/coordinator.py:197-212 | Kick, removal, restart and wait are all called, in this order, whatever became of the others; incomplete exactly if the client refuses the id or one of the calls fails. |
| `ProfileCoordinators.ProfileCoordinator.ReaddActive` | control/src/ezopenpn/profiles/coordinator.py:213-219 | Every active record whose material decrypts is called for, in the order of the listing; incomplete exactly if it was so before, a record cannot be served or a call fails. |
| `Supervisor.OneChildAtATime` | runtime/internal/supervisor/process.go:211-294 | Within one Run a child is started only after the exit of every earlier one was received. |
| `Supervisor.HealthIsTruthful` | runtime/internal/supervisor/process.go:249-281 | healthy is true only while a child is alive, except between the receipt of its exit and the very next statement, which stores false. |
| `Supervisor.HealthyForAMoment` | runtime/internal/supervisor/process.go:280-281 | That exception occurs: a log of three entries after which healthy is true and no child is alive. |
| `Supervisor.RepliedAtMostOnce` | runtime/internal/supervisor/process.go:228-278 | No request gets two replies, and only accepted requests get one. |
| `Supervisor.RepliedOrOpen` | runtime/internal/supervisor/process.go:228-278 | Every accepted request but the one being handled has its reply. |
| `Supervisor.EveryRequestAnsweredOnce` | runtime/internal/supervisor/process.go:228-278 | Between two rounds, and after the run, every accepted request has exactly one reply. |
| `Supervisor.RestartMeansStarted` | runtime/internal/supervisor/process.go:237-250 | A nil restart reply means a child was started after the request was accepted and its exit not received before the reply. |
| `Supervisor.CanceledIsRefused` | runtime/internal/supervisor/process.go:233-236 | The entry after the acceptance of a canceled restart request is its refusal. |
| `Supervisor.LiveIsCarriedOut` | runtime/internal/supervisor/process.go:237-240 | The two entries after the acceptance of a live restart request take the health away and send SIGTERM. |
| `Supervisor.LiveIsCanceledLate` | runtime/internal/supervisor/process.go:270-278 | A live restart request is answered ErrRestartCanceled only after a child was started for it and the run was cancelled. |
| `Supervisor.AnswerMeans` | runtime/internal/supervisor/process.go:228-278 | Each answer says what it should: of a shutdown, whether the child is gone; of a live restart, what became of the old child and the new one. |
| `Supervisor.ExitIsCounted` | runtime/internal/supervisor/process.go:252-291 | An exit nobody asked for is counted as a failure before any child is started again. |
| `Supervisor.RecentGrows` | runtime/internal/supervisor/process.go:198-209 | Pruning what the previous failure kept, then appending, is pruning the whole failure history to (now-window, now]. |
| `Supervisor.NoBusyInterval` | runtime/internal/supervisor/process.go:198-209 | If no failure exceeded the limit, no interval of the window's length contains more failures than the limit. |
| `Supervisor.RestartsAreSpaced` | runtime/internal/supervisor/process.go:258-291 | Any interval of the window's length, wherever it starts, holds at most maxFailures failure-triggered restarts. |
| `Supervisor.ProcessManager.Compact` | runtime/internal/supervisor/process.go:201-206 | The in-place loop leaves exactly the times after the cutoff, in order, at the front of the array. |
| `Supervisor.ProcessManager.RecordFailure` | runtime/internal/supervisor/process.go:198-209 | The slice equals the filtered full history and never exceeds maxFailures+1 entries; exceeded exactly when the history exceeds the limit. |
| `Supervisor.ProcessManager.StopChild` | runtime/internal/supervisor/process.go:173-196 | Signals, waits, kills, waits: ErrChildStop exactly when the exit never arrived, and then the child was killed. |
| `Supervisor.ProcessManager.HandleRestart` | runtime/internal/supervisor/process.go:232-279 | A canceled request gets its refusal, and that is all that happens; a live one stops the child, starts another and goes through the stability window: the log stays lawful, so there is one reply and it is the due one; then the loop's or the return's guarantees hold. |
| `Supervisor.ProcessManager.HandleShutdown` | runtime/internal/supervisor/process.go:228-231 | One shutdown request ends the run with the answer the request deserves: nil, or ErrChildStop if the child is still alive. |
| `Supervisor.ProcessManager.Run` | runtime/internal/supervisor/process.go:211-294 | Every log of a run, cut off anywhere, obeys the rules above and has exactly what the run was told; on return health is false, a child is alive exactly with ErrChildStop, every request is answered, ErrRepeatedFailures comes exactly at the first failure beyond the limit, and no error only after a cancellation or shutdown and the child's exit. |
| `LoginThrottle.FailuresAreSpaced` | control/src/ezopenpn/web/routes/auth.py:89-109 | Between two clears, n consecutive admitted failures of one key span at least 30(n-1)-119 seconds, for any mix of decay gaps and other keys. |
| `LoginThrottle.BoundIsAttained` | control/src/ezopenpn/security/throttle.py:79-84 | The bound is sharp: from six failures on, a key that fails at each first admitted moment meets it exactly. |
| `LoginThrottle.StaysSpaced` | control/src/ezopenpn/security/throttle.py:51-86 | The same as an invariant on the stored row: last failure, block and the streak's deficit. |
| `LoginThrottle.DeficitIsBounded` | control/src/ezopenpn/security/throttle.py:81-83 | All delays of a streak together fall short of 30 seconds each by at most 119 seconds, and by exactly that from the sixth on. |
| `LoginThrottle.StreakIsLongest` | control/src/ezopenpn/security/throttle.py:76-80 | The count is the length of the longest suffix of failures with gaps of at most 15 minutes. |
| `LoginThrottle.FailedExtends` | control/src/ezopenpn/security/throttle.py:60-84 | One failure turns the row of a history into the row of the longer history. |
| `LoginThrottle.BlockNeverShrinks` | control/src/ezopenpn/security/throttle.py:79-84 | A key's block never ends earlier than before, under a clock that does not go back. |
| `LoginThrottle.LoginThrottleService.RegisterFailure` | control/src/ezopenpn/security/throttle.py:51-86 | Both keys count the failure and no other changes; the delay returned is what retry_after answers at that moment; each row stays the function of its failures since the last clear. |
| `LoginThrottle.LoginThrottleService.RetryAfter` | control/src/ezopenpn/security/throttle.py:88-108 | Zero exactly when neither key is blocked beyond now; otherwise what remains of the block of one of the two keys, and at least what remains of the other's. |
| `LoginThrottle.LoginThrottleService.Clear` | control/src/ezopenpn/security/throttle.py:110-127 | Removes exactly the two keys; the rows and the failure histories of all others stay. |
| `LoginThrottle.LoginRoute.Login` | control/src/ezopenpn/web/routes/auth.py:86-110 | One step at one `now`: throttled, with nothing stored, exactly when one of the two keys is blocked; otherwise a right password is granted and both keys are forgotten, and a wrong one is rejected and counts for both; all other keys stay. |
| `BackupPaths.PartsJoin` | installer/backup_archive.py:112-128 | The archive name of a path stands for that path again. |
| `BackupPaths.PartsArePlain` | installer/backup_archive.py:322-328 | A validated name stands for a path below the directory it is joined to. |
| `BackupManifest.LayoutIsSound` | installer/backup_archive.py:26-42 | The fixed places and the trees are plain paths, none inside another. |
| `BackupManifest.ManifestRecords` | installer/backup_archive.py:371-404 | Accepts exactly the record lists that are well formed, sorted, unique, allowed and complete. |
| `BackupManifest.AllowedExactly` | installer/backup_archive.py:363-368 | A name is allowed exactly if it stands for a fixed place or for one below a tree. |
| `BackupManifest.ParseManifest` | installer/backup_archive.py:331-360 | Accepts exactly content of at most 1 MiB that parses to an object with exactly the expected fields and values, and returns that object. |
| `BackupArchives.CheckMembers` | installer/backup_archive.py:453-471 | Accepts exactly 1 to 10,000 valid, distinct, regular members of at most 2 GiB each and 4 GiB together. |
| `BackupArchives.SafeMembersExactly` | installer/backup_archive.py:457-471 | Those members in numbers: at most 10,000, 2,147,483,648 bytes each and 4,294,967,296 together, names of at most 512 characters without backslash, leading slash or double-dot component. |
| `BackupArchives.ReadManifest` | installer/backup_archive.py:472-483 | Succeeds exactly when the members are safe and their names are manifest.json and one payload name per record. |
| `BackupArchives.ExtractAll` | installer/backup_archive.py:484-489 | Succeeds exactly when every record's member is found and has the recorded length and digest and no two files collide; then exactly these files are there. |
| `BackupArchives.ValidateAndExtract` | installer/backup_archive.py:438-512 | Succeeds exactly for acceptable archives, and hands over their manifest and files. |
| `BackupArchives.AcceptedIsOfThisInstallation` | installer/backup_archive.py:495-511 | Of an accepted archive the archived and the present install.json state the manifest's version and address, and the database its schema; the manifest is one of this application and format. |
| `BackupArchives.TrailingSlashIsRefused` | installer/backup_archive.py:484-489 | An archive with a record path that ends in a slash is refused, although the manifest checks let it pass: the lookup drops the slash and finds no member, or another record's. |
| `BackupArchives.ExtractedAsRecorded` | installer/backup_archive.py:407-435 | After a normal return there is exactly one file per record, each below the payload root at a place of the layout, and of the recorded length and digest. |
| `BackupArchives.FixedAreStaged` | installer/backup_archive.py:401-403 | Every fixed file is among those extracted. |
| `BackupCreation.PayloadKeys` | installer/backup_archive.py:234-247 | The payload has the fixed files and the files of the trees, and nothing else. |
| `BackupCreation.PayloadTree` | installer/backup_archive.py:240-247 | Below each tree's place the payload is that tree. |
| `BackupCreation.PayloadIsTree` | installer/backup_archive.py:234-247 | No payload path is inside another, so every file can be created. |
| `BackupCreation.CollectPayload` | installer/backup_archive.py:231-247 | Copies exactly the payload and adds up its size; fails exactly on a missing source or a file beyond 2 GiB. |
| `BackupCreation.SortRecords` | installer/backup_archive.py:251 | One record per payload file, sorted by name. |
| `BackupCreation.CreateArchive` | installer/backup_archive.py:209-298 | Succeeds exactly when everything is present and within the limits it checks; the archive is the manifest and every payload file in the order of names. |
| `BackupRestore.PackedIsPayload` | installer/backup_archive.py:283-287 | What is extracted from a created archive is the payload it was created from. |
| `BackupRestore.CreatedIsAccepted` | installer/backup_archive.py:438-512 | A created archive that meets the four hypotheses is accepted and extracts to its payload. |
| `BackupRestore.AcceptedExactly` | installer/backup_archive.py:209-298 | Of created archives exactly those are accepted whose names have at most 512 characters and no backslash, whose manifest is within 1 MiB and total within 4 GiB, on an installation of the same version and address. |
| `BackupRestore.ManifestStates` | installer/backup_archive.py:252-266 | A created manifest states the version and address of the installation's install.json and the schema of its database. |
| `BackupRestore.OtherInstallationIsRefused` | installer/backup_archive.py:501-511 | A created archive is accepted on no installation whose install.json states another version or address. |
| `BackupRestore.BackslashIsRefused` | installer/backup_archive.py:322-324 | A created archive with one file whose name has a backslash is accepted on no installation. |
| `BackupExamples.CreatedButNeverAccepted` | installer/backup_archive.py:209-298 | With any database and install.json that pass the checks there is an installation that create_archive archives and whose archive is never accepted. |
| `BackupRestore.ApplyPayload` | installer/backup_archive.py:582-646 | Refuses exactly a payload that no longer matches its manifest. Otherwise every fixed file but state/install.json and both trees are installed, or, only if an exception strikes, a prefix of the files and then of the trees, each old or new in whole, but for one tree that may be gone. |
| `BackupRestore.RestoreResumes` | installer/backup_archive.py:582-646 | Repeating a restore that broke off anywhere gives the same result as if the first had never begun. |
| `BackupRestore.RestoreGivesBack` | installer/backup_archive.py:582-646 | Restoring the payload of an installation gives back its fixed files, except state/install.json, and both trees in whole. |
| `BackupRestore.BackUpAndRestore` | installer/backup_archive.py:209-646 | Create, validate and apply in sequence give everything back, or an exception breaks them off with the payload partly restored, or the installation could not be archived, or its archive fails one of the hypotheses. |
| `TreeReplacement.AllOrNothing` | installer/backup_archive.py:546-579 | Afterwards there is the whole old or the whole new tree if and only if no exception strikes between the rename of the old tree and the note of it. |
| `TreeReplacement.LosesBothTrees` | installer/backup_archive.py:566-567 | A concrete strike at that moment after which neither tree is left. |
| `TreeReplacement.TreeOfExact` | installer/backup_archive.py:548-550 | The copy has exactly the listed files with their contents. |
| `TreeReplacement.Restorer.CopyTree` | installer/backup_archive.py:535-579 | For every point at which an exception may strike: which tree is at the destination, new exactly when the second rename took place, and no temporary or previous directory left unless it strikes between mkdtemp and the protected block. |
| `TreeReplacement.Restorer.Swap` | installer/backup_archive.py:563-570 | The renames, at every point of interruption. |
| `LogRedaction.ValueIsGone` | installer/sanitize_logs.py:43-53 | A stored value that cannot overlap the marker is nowhere in the output, whatever the text, the other values and their order. |
| `LogRedaction.GoneExactly` | installer/sanitize_logs.py:43-53 | For a nonempty value without angle brackets, that holds for all texts if and only if it is not part of the word "redacted". |
| `LogRedaction.PartOfTheMarkerStays` | installer/sanitize_logs.py:47 | A value that is part of "redacted" is still in the output when it is itself the text. |
| `LogRedaction.SubstituteKeepsAbsence` | installer/sanitize_logs.py:45-53 | Absence of such a value survives every later replacement and both pattern passes. |
| `LogRedaction.RedactTwice` | installer/sanitize_logs.py:43-53 | If every value is empty or separable, redacting again with them in any order changes nothing. |
| `LogRedaction.NoLinkRemains` | installer/sanitize_logs.py:48 | No vless or hysteria2 link is left in the output. |
| `LogRedaction.NoShareLinkRemains` | installer/sanitize_logs.py:48 | Where the output reads vless:// or hysteria2:// in any case, white space or the end follows. |
| `LogRedaction.NoCredentialRemains` | installer/sanitize_logs.py:49-53 | Where the output reads token=, secret= or password= in any case with a value behind it, that value is the marker and nothing else. |
| `LogRedaction.CleanTextStays` | installer/sanitize_logs.py:43-53 | A text with none of the values and none of the five words stays as it is. |
| `LogRedaction.CredentialsTwice` | installer/sanitize_logs.py:49-53 | The credential pass applied twice is the credential pass. |
| `LogRedaction.Find` | installer/sanitize_logs.py:47-53 | The leftmost match of a pattern from a position on. |
| `LogRedaction.Redact` | installer/sanitize_logs.py:43-53 | The loop applies the values longest first, then the two pattern passes. |
| `CertDiscovery.Discover` | runtime/internal/certsync/discover.go:37-104 | The first pair in walk order among the usable pairs with the latest NotAfter, or none exactly if none is usable, or the source error exactly for a bad source or arguments. |
| `CertDiscovery.FindKeyIsFirst` | runtime/internal/certsync/discover.go:126-144 | The key is that of the first candidate that fits; none is found only if none fits. |
| `CertDiscovery.FoundIsGood` | runtime/internal/certsync/discover.go:62-81 | A usable pair has a matching address, enough validity, a fitting key and readable sizes, and is what its two files hold, with that certificate's end and fingerprint. |
| `CertDiscovery.UsableExactly` | runtime/internal/certsync/discover.go:53-81 | A file is used exactly if its name ends in .crt or .pem in any case, its certificate is readable, of the address and valid long enough, and one of the places beside it has a key that belongs to it. |
| `CertDiscovery.OnlySuffixesAreUsed` | runtime/internal/certsync/discover.go:53-60 | No other entry of the walk is used. |
| `CertDiscovery.KeyPlaces` | runtime/internal/certsync/discover.go:126-133 | The places of the key, in the order they are tried. |
| `CertDiscovery.FoundEndsLate` | runtime/internal/certsync/discover.go:82-102 | A usable pair's NotAfter is never the zero time that stands for no pair. |
| `CertExport.Exporter.Export` | runtime/internal/certsync/export.go:28-82 | Wherever it fails or dies, the destinations are a prefix of the new files followed by what was there before and no other file changed; the same holds at every moment on the way, with a prefix that never gets shorter. A valid pair and no failing call give a return without an error; then all three are new, and the calls were the staging, the two renames, a sync, the rename of the record and a sync, or none if all three were new already. |
| `CertExport.Exporter.StageFile` | runtime/internal/certsync/export.go:200-230 | Only temporary files change, and one may be left in part; a staged file is complete before it is renamed. |
| `CertExport.NewTrioHealth` | runtime/internal/certsync/export.go:84-135 | A complete new trio is healthy exactly while its certificate is valid for long enough. |
| `CertExport.HealthyMeans` | runtime/internal/certsync/export.go:84-135 | A healthy answer means that key, certificate and record belong together and the certificate is of the recorded address and valid long enough. |
| `CertExport.DiscoveredIsHealthy` | runtime/internal/certsync/export.go:84-135 | Exporting a discovered pair makes CheckHealth succeed at the same time and validity. |
| `CertExport.MixtureIsUnhealthy` | runtime/internal/certsync/export.go:84-135 | After an export stopped anywhere over files whose record is of another certificate, CheckHealth accepts only the whole old or the whole new trio, at any time. |
| `CertExport.ReadDuringExport` | runtime/internal/certsync/export.go:84-135 | CheckHealth reads record, certificate and key one after the other while an export runs: whatever it accepts has record and certificate of one trio, the whole new trio or the old record and certificate with a key that fits. |
| `AdminSessions.AcceptedExactly` | control/src/ezopenpn/security/sessions.py:114-150 | A session is accepted iff since its creation it was not revoked, no password reset happened, no attempt was refused, and neither the absolute lifetime nor the idle time since the last success has run out. |
| `AdminSessions.RefusedForGood` | control/src/ezopenpn/security/sessions.py:130-139 | A refusal is final whatever the clock says later. |
| `AdminSessions.RowSummarizesHistory` | control/src/ezopenpn/security/sessions.py:82-162 | The stored row is the summary of the session's history. |
| `AdminSessions.SessionService.Create` | control/src/ezopenpn/security/sessions.py:82-112 | Adds the session with both deadlines exactly if the administrator exists and the digest is free, or nothing. |
| `AdminSessions.IssuedIsTokenText` | control/src/ezopenpn/security/sessions.py:31-32 | No token that is issued is outside the text range of authenticate. |
| `AdminSessions.SessionService.Authenticate` | control/src/ezopenpn/security/sessions.py:114-150 | Accepts exactly a token whose session is alive, and extends it; a refused session is revoked; each as one event of the history; a token outside the text range touches nothing. |
| `AdminSessions.SessionService.Revoke` | control/src/ezopenpn/security/sessions.py:157-162 | Marks the session revoked once. |
| `AdminSessions.SessionService.ResetPassword` | control/src/ezopenpn/security/admin.py:102-119 | Raises the version by one and revokes exactly the open sessions of the administrator, or changes nothing. |
| `Readiness.XrayClient.WaitReady` | control/src/ezopenpn/integrations/xray.py:158-183 | Terminates with strictly decreasing remaining time within the bound on calls; succeeds exactly on an answer, is rejected exactly on a rejection, and gives up only after the whole time; between two calls it sleeps exactly the scheduled pause. |
| `Readiness.MostCallsExact` | control/src/ezopenpn/integrations/xray.py:162-181 | The k-th call of the fastest possible run starts before the deadline iff k is within the bound, 3 + ceil((T-0.35)/0.25) beyond 0.35 s. |
| `Readiness.Schedule` | control/src/ezopenpn/integrations/xray.py:24-25 | The pauses are 50, 100, 200 and then always 250 ms. |
| `Readiness.SixSeconds` | control/src/ezopenpn/profiles/coordinator.py:210 | At most 26 calls for the 6 seconds the coordinator waits. |

## Left out

- Cryptography, base64, password hashing, X.509 and PEM parsing; they are parameters (digests, parsers, key matching, decryptability).
- SQLAlchemy and SQLite themselves, `updated_at`, profile names and audit events.
- gRPC, httpx, Unix sockets, routes, cookies, templates and config rendering; only the state checks of the Hysteria and subscription routes and the admission order of the login route are modelled.
- The contents of link bundles; building them succeeds or raises.
- A coordinator without a reconciler or without a health object, the re-entrant depth of its lock (nested calls run inside the outer operation), and the reconciler's own lock, which is only taken inside the coordinator's.
- The second health update in `control/src/ezopenpn/web/app.py`, line 62, which runs outside the lock; nothing is claimed about the health snapshot between operations.
- `FakeRuntimeCoordinator`, which is test scaffolding.
- Remote calls that take effect after they timed out.
- ProfileRepositories.ProfileRepository.List: the order by creation time and id; a listing is any order of all rows, and nothing proved depends on it.
- ProfileRepositories.ProfileRepository.SetRuntimeError: does not check the shape of the error code, because the coordinator only passes its own constants; it keeps `Valid` only for a DISABLED profile, the only one the coordinator passes.
- ProfileRepositories.ProfileRepository.InsertPending: takes the token and the secret themselves rather than their digests, merging the service that draws them with the repository that stores them.
- ProfileReconcilers.RuntimeReconciler.Run: orders the calls after a restart by the listing and says nothing about that order.
- Supervisor: the client halves `Restart` and `Shutdown`, where a caller may stop waiting for its reply, the refusal of other signals, the lengths of the stop and stability timers (whether the exit arrives in time is nondeterministic), and a window or limit that is not positive or is negative.
- LoginThrottle.LoginThrottleService.RegisterFailure: normalisation of addresses and logins is a pair of arbitrary functions; the pre-authentication token check before the throttle is not part of this model.
- AdminSessions: CSRF tokens, the contents of identities and the removal of an administrator during a history; a session's token digest doubles as its id.
- Readiness.XrayClient.WaitReady: the timeout given to each call; a call takes any time.
- LogRedaction.Redact: collecting the values from the files; they are the argument, with empty ones skipped.
- CertExport.Exporter.Export: power loss that reorders renames; a kill stops between or within calls, each rename is atomic.
- CertExport.ReadDuringExport: each of the three reads is one step, because a file that was replaced between its examination and its opening is refused.
- CertDiscovery.Discover: files that change during the walk; the walk and the files are arguments.
- Backup archives: the gzip and tar encoding, the archive's owner, mode and checksum file, the staging directory's checks, and disk errors; an archive is the list of its members.
- BackupRestore.ApplyPayload: owners and modes, temporary files, and the removal of the database's -wal and -shm files.
- BackupCreation.CreateArchive: empty directories, which an archive does not hold, and symbolic links, which make it refuse.
- TreeReplacement.Restorer.CopyTree: a second exception inside its handlers; the rollback rename and the removals are taken to succeed. Its modes and owners are one point at which an exception may strike.
