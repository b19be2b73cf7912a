# Verified model of the agent-comm platform's stateful core

This project models three parts of the platform and proves what they promise over whole runs:

* **The mailbox** (`internal/mq`): the tables of the message database, every transaction on them, the loops that page
  through the queue and acknowledge in batches, and the gateway sequence in front of them.
* **The console's crash-safe policy protocol** (`internal/config`, `internal/api`, `cmd/platform/main.go`): the override
  file, its loader, the handlers that rewrite it, and the recovery at the next start.
* **The registry** (`internal/registry`): the rule that a URN's record never goes back in time, and the codec of the
  address columns.

## How it is built

| file | contents |
|---|---|
| `Prelude.dfy`, `Ordering.dfy` | shared vocabulary; the order of rows and what sorting, filtering and resuming a scan mean |
| `MailboxModel.dfy` | the tables as a value and each transaction as a function on them, refusals included |
| `RowLaws.dfy` | what each of these functions means for the rows and fields it touches, in bytes and seconds |
| `Mailbox.dfy`, `Gateway.dfy` | the `Store` object and the gateway as imperative methods, each proved against those functions |
| `Retrieval.dfy`, `DrainV2.dfy`, `Batches.dfy`, `Paging.dfy` | what a batch is, the scan that computes it, acknowledging it, draining a queue; pages read while other requests run |
| `Runs.dfy` | runs: any interleaving of transactions, partial cleanups and restarts, each with its own limits, under a clock that never goes back |
| `Delivery.dfy`, `Namespace.dfy`, `Quota.dfy`, `Frames.dfy`, `Pinning.dfy`, `Enrolment.dfy`, `RowHistory.dfy`, `ExactlyOnce.dfy`, `LateCommit.dfy`, `Archive.dfy` | one whole-run property each |
| `Execution.dfy` | every run carried out by the store's own methods |
| `CleanupView.dfy` | cleanup changes nothing a later read can see |
| `AdminConfig.dfy`, `AdminLaws.dfy`, `AdminPolicy.dfy`, `AdminConsole.dfy` | loader and savers; the protocol as atomic steps with crashes and failures between any two; the handlers, proved to have the effect of their steps |
| `Codec.dfy`, `Registry.dfy` | the address codec; registration, lookup, cleanup and runs of them |

Conventions. A transaction is one atomic all-or-nothing step. Clock readings, random choices, I/O outcomes and the verdicts
of cryptographic checks are arguments, and every theorem holds for all of them. Where the source reads the clock before a
transaction and again inside it, the model has two readings (`seen` and `at`). Library calls whose code is in the SDK are the
functions of `Sdk`, `Parser` and `Verifier`; every theorem holds for every choice of them. Fixed-width arithmetic is explicit
where it matters: the nanosecond products of certificate times wrap at 64 bits, the live history retention at 32.

## Where the code and its documentation part

* `internal/mq/store.go:859-861` says that after the signed expiry identical bytes cannot be newly admitted. `storeV2`
  compares the expiry with a reading taken before its transaction opens, so a commit delayed past the expiry can find the
  ledger entry cleaned and admit the bytes again. `LateCommit.RepeatableIffLate` proves that this is the only way: a commit
  can repeat an admission if and only if it lands at or after the signed expiry. The exactly-once and no-revival theorems
  carry that condition on the commit.
* `docs/architecture/REGISTRY_SECURITY.md:17-18` says the freshness window is not a monotonic-update guarantee. The code also
  refuses older timestamps, and with it the guarantee holds (`Registry.NeverRollsBack`). The check runs before the
  registry lock is taken; `Registry.RollbackIffLongWait` gives the exact wait, lease minus 359 seconds, beyond which a
  registration could replace a newer one after its lease.
* The SQL test of the v1 insert and the nanosecond rule of the reads agree as documented for certificate times before the
  year 2262. `Enrolment.ChecksAgreeIffRangesDo` gives the exact condition for every identity, and
  `Enrolment.ChecksAgreeIffExpiryFits` reads it off the expiry.
* A storage change whose rollback fails answers that the new policy remains pending on disk. It does, and the restart adopts
  it, if and only if no forwarding change is saved before the restart
  (`AdminPolicy.PendingSwitchSurvivesIffNoForwarding`). The safety theorem holds in both cases.

## Model

| member | source | states |
|---|---|---|
| Ordering.Sorted | internal/mq/store.go:394-398 | the ORDER BY of every queue read: the same rows, ascending in (stored_at, id) |
| Ordering.SortedAfter | internal/mq/store.go:393-420 | a scan resumed after its n-th row sees exactly the rows not seen yet |
| Ordering.LexLessAt | internal/mq/store.go:394-398 | IDs of one second come in text order: the first difference decides, a proper prefix comes first |
| Mailbox.Store.constructor | internal/mq/store.go:80-139 | a restart keeps every table, stamps identities that carry no enrolment instant with the current one, and of the policy keeps only whether the pinned one is strict |
| Mailbox.Store.StoreEnvelope | internal/mq/store.go:143-270 | exact outcome of a v1 store and of what subscribers are offered; a store under an ID that is present changes no table and offers nothing |
| Mailbox.Store.InsertV1 | internal/mq/store.go:194-269 | policy recheck, collision check, insert, quota count and rollback equal the atomic commit |
| Mailbox.Store.NotifySubscribers | internal/mq/store.go:318-343 | under a strict policy a message is offered only if it is managed at its stored instant |
| Mailbox.ManagedAtCached | internal/mq/store.go:360-378 | the grant cache never changes the answer of the managed test and never exceeds 1024 entries |
| Mailbox.ShowsCached | internal/mq/store.go:419-439 | the row filter of retrieval decides exactly decodability and, when strict, the managed route |
| Mailbox.Store.RetrieveEntry | internal/mq/store.go:353-457 | the paging loop terminates and returns the batch of the inbox, in order and decoded, whatever the page size, the hidden rows and the cache |
| Mailbox.Store.InspectBatch | internal/mq/store.go:472-529 | one strict ACK query grants exactly the requested rows that retrieval could deliver, under their nanosecond stamps |
| Mailbox.Store.Ack | internal/mq/store.go:460-568 | batches of 16 or one update: exactly the ackable rows turn read, duplicates counted once, errors change nothing |
| Retrieval.PageIsSlice | internal/mq/store.go:393-420 | a keyset page is the next slice of the ordered pending rows |
| Retrieval.BatchIsLongestFittingPrefix | internal/mq/store.go:353-457 | a prefix of the inbox fits 500 messages and 4 MiB if and only if it is no longer than the batch |
| Retrieval.BatchIsNonempty | internal/mq/store.go:440-446 | the first message always goes out, however large |
| Batches.RetrievalsAreLongestPrefixes | internal/mq/store.go:353-457 | in every reachable state both retrievals return the longest prefix within both limits; admission has capped every message |
| Retrieval.AckMarksExactlyTheRequested | internal/mq/store.go:460-568 | a row is marked if and only if it was requested, is pending and, when strict, deliverable |
| Retrieval.AckDropsThePrefix | internal/mq/store.go:460-568 | acknowledging the first n deliverable rows counts n and leaves exactly the others, in order |
| Retrieval.DrainDeliversEverything | internal/mq/store.go:353-568 | retrieve-then-ACK terminates; each ACK counts its whole batch; the batches concatenate to the inbox |
| DrainV2.AckV2DropsThePrefix | internal/mq/v2_store.go:310-336 | acknowledging the first n rows of the current policy counts n and leaves exactly the others, in order |
| DrainV2.DrainDeliversEverything | internal/mq/v2_store.go:277-336 | the same for v2: each ACK counts its whole batch and the batches concatenate to the rows of the current policy |
| Paging.InterleavedRetrieval | internal/mq/store.go:393-457 | pages interleaved with other transactions return no row twice, and a row deliverable at every page exactly once if it was passed or a page came back short |
| Paging.CachedVerdictIsFresh | internal/mq/store.go:360-378 | grants cached on an earlier page decide like fresh ones while no enrolment, revocation or policy change comes between |
| Paging.CachedGrantWasEnrolled | internal/mq/store.go:360-378 | a cached grant, stale or not, permits a row only on the strength of an enrolment no later than the row, live without a gap until it was cached |
| Mailbox.Store.EnableV2Policy | internal/mq/v2_store.go:83-120 | pins before publishing; a lower epoch or another hash for the same epoch changes nothing |
| Mailbox.Store.ExistingV2Receipt | internal/mq/v2_store.go:124-149 | the retry lookup: stored receipt, conflict, or nothing |
| Mailbox.Store.StoreV2 | internal/mq/v2_store.go:160-275 | exact outcome of a v2 store, checks before the transaction included |
| Mailbox.Store.InsertV2 | internal/mq/v2_store.go:191-275 | queue row, receipt, retry hash and plaintext publish together or not at all |
| Mailbox.Store.RetrieveV2 | internal/mq/v2_store.go:277-308 | the batch of the current policy's rows with their receipts, receipts counted in the byte budget |
| Mailbox.Store.AckV2 | internal/mq/v2_store.go:310-336 | only the caller's own listed, unread, unexpired rows of the current policy change, only in their read mark, and the answer is how many did |
| Mailbox.Store.StoreV2Frame | internal/mq/v2_store.go:340-427 | exact outcome of a handshake store: checks, duplicate, conflict, bound of 100 with rollback |
| Mailbox.Store.RetrieveV2Frames | internal/mq/v2_store.go:434-452 | the pending frames, oldest first, at most 100 |
| Mailbox.Store.AckV2Frames | internal/mq/v2_store.go:454-475 | only the caller's own listed, unread, unexpired frames change, only in their read mark, and the answer is how many did |
| Mailbox.Store.EnrollManaged | internal/mq/v2_store.go:479-542 | exact outcome of an enrolment; on success the identity holds key, issuer, serial and validity of the certificate, unrevoked |
| Mailbox.Store.RevokeManaged | internal/mq/v2_store.go:544-562 | records the serial once and revokes whoever carries it |
| Mailbox.Store.DeleteMessage | internal/mq/store.go:748-770 | removes the recipient's row of that ID in both queues and counts what went |
| Mailbox.Store.PurgeQueue | internal/mq/store.go:809-831 | removes all rows of one recipient and counts them, archive and ledger untouched |
| Mailbox.Store.CleanUp | internal/mq/store.go:862-886 | each statement may fail on its own; together they equal the staged cleanup |
| Mailbox.Store.SetComplianceRetentionDays | internal/mq/compliance_store.go:67-95 | deletes what no longer fits, then publishes; failure changes neither rows nor setting |
| Mailbox.Store.GetComplianceMessage | internal/mq/compliance_store.go:161-181 | shows a row only while the active retention does, and never an oversized body |
| Gateway.AdmitV2 | internal/mq/v2_gateway.go:105-171 | authenticity first, then the retry lookup, only then policy, body, receipt and store; what is stored matches the signed header |
| Runs.ScreensEstablishAllowed | internal/mq/v2_store.go:160-190 | what runs presuppose of a store is what the checks before its transaction establish |
| RowLaws.V1CheckedIff | internal/mq/store.go:143-187 | exactly which v1 messages pass the checks before the transaction |
| RowLaws.V1StoredExpiry | internal/mq/store.go:176-187 | the stored expiry is the requested one, capped by the ceiling, which also stands in for none |
| RowLaws.V1InsertedIff | internal/mq/store.go:194-269 | an insert adds one unread row holding the message exactly when policy, ID and limit allow; full means no room for one more |
| RowLaws.V2CheckedIff | internal/mq/v2_store.go:160-190 | exactly which v2 messages pass the checks before the transaction |
| RowLaws.V2InsertedIff | internal/mq/v2_store.go:191-275 | exactly when a v2 commit publishes, and the queue row, ledger entry and plaintext it publishes, field by field |
| RowLaws.LookupIff | internal/mq/v2_store.go:124-149 | the receipt of the very message under that ID, a conflict for any other, nothing for an unknown ID |
| RowLaws.FrameCheckedIff | internal/mq/v2_store.go:340-385 | exactly which frames pass the checks before the transaction |
| RowLaws.FrameInserted | internal/mq/v2_store.go:386-426 | a frame commit adds one unread row, recognises the exact frame, or changes nothing; full means 100 pending |
| RowLaws.V1MarkedIff | internal/mq/store.go:536-556 | an ACK turns exactly the recipient's own unread, unexpired rows with a listed stamp, and only their read mark |
| RowLaws.V1AckableIff | internal/mq/store.go:472-535 | what a v1 ACK may take: listed, the caller's, unread, unexpired and, when strict, managed |
| RowLaws.PolicyAcceptedIff | internal/mq/v2_store.go:83-120 | exactly which policies are accepted, and that an accepted one is pinned and followed as given |
| RowLaws.PinnedIsAcceptedAgain | internal/mq/v2_store.go:96-104 | after a restart the pinned policy is accepted again exactly while it is valid |
| RowLaws.EnrolledIff | internal/mq/v2_store.go:479-542 | exactly which enrolments succeed; the identity then holds key, issuer, serial and validity of the certificate, unrevoked |
| RowLaws.EnrolmentInstant | internal/mq/v2_store.go:520-534 | a renewal of a live enrolment from the same issuer keeps its instant, any other enrolment starts now |
| RowLaws.RevokedIff | internal/mq/v2_store.go:544-562 | a revocation records the serial at its first instant and revokes whoever carries it, nobody else |
| RowLaws.ManagedIff | internal/mq/v2_store.go:576-619 | the managed rule over identity fields: unrevoked, of this issuer and key, stamped since enrolment and within the certificate |
| RowLaws.DeletedIff | internal/mq/store.go:748-770 | a delete removes the recipient's message under the ID and nothing else |
| RowLaws.PurgedIff | internal/mq/store.go:809-831 | after a purge the recipient keeps nothing and everyone else keeps everything |
| RowLaws.CleanedIff | internal/mq/store.go:862-886 | a cleanup without failures keeps exactly what is unexpired and, of what was read, the retained history |
| RowLaws.CleanedRecordsIff | internal/mq/store.go:862-886 | and of ledger and archive exactly what is unexpired and retained |
| RowLaws.RetainedIff | internal/mq/compliance_store.go:67-95 | which retention settings are refused, and exactly what an accepted one keeps |
| RowLaws.ShownIff | internal/mq/compliance_store.go:161-181 | a plaintext is shown for the retention days, of 86,400 seconds each, from its admission |
| RowLaws.UnreadIsPending | internal/mq/store.go:235-269 | the quota counts the unread, unexpired messages of the recipient, both versions together |
| Runs.OnlyStoresAddRows | internal/mq/store.go:460-886 | every operation but a store only drops rows or marks them read |
| Delivery.V1DeliveredIff | internal/mq/store.go:353-457 | a stored v1 message left alone is in its recipient's inbox exactly until it expires, under a strict policy exactly while an enrolment carries it, and in nobody else's |
| Delivery.AckedV1IsGone | internal/mq/store.go:460-568 | an acknowledged v1 message carries the second of its ACK and is in no inbox again |
| Delivery.V2DeliveredIff | internal/mq/v2_store.go:228-308 | an admitted v2 message left alone is in its recipient's inbox exactly while unexpired and under the active policy, with the envelope and receipt it was admitted with, and in nobody else's |
| Delivery.FrameDeliveredIff | internal/mq/v2_store.go:400-452 | a stored frame left alone waits, byte for byte, for its recipient exactly until it expires |
| Delivery.PlaintextIsKept | internal/mq/v2_store.go:257-270 | an admitted plaintext is kept whole and shown while the durations in force reach back to it |
| Execution.ExecuteRun | internal/mq/store.go:80-139 | every run is a sequence of calls of the store's own methods, which take tables and process exactly where the run says |
| Namespace.NamespaceHolds | internal/mq/v2_store.go:202-227 | in every reachable state v1 IDs are disjoint from v2, ledger and archive IDs, and a queued and ledgered ID agree on recipient, hash, receipt and expiry |
| Namespace.DeleteRemovesAtMostOne | internal/mq/store.go:748-770 | an admin delete removes one message if the recipient has it and none otherwise |
| Quota.QuotaStep | internal/mq/store.go:235-269 | no step lifts a pending count above both its previous value and the limit |
| Quota.MailboxNeverExceedsLimit | internal/mq/v2_store.go:228-256 | from an empty store the unread, unexpired messages of a mailbox never exceed the largest limit of the starts so far; a lower limit at a later start evicts nothing |
| Quota.MailboxStaysWithinProcess | internal/mq/store.go:235-269 | while a process lives, a mailbox never exceeds the larger of its limit and what the process found |
| Quota.DuplicatesCostNothing | internal/mq/store.go:226-269 | in every reachable state a v1 store of a row still present changes nothing and is not fresh; past the usual refusals it succeeds whatever the limit |
| Quota.LedgerBacksQueue | internal/mq/store.go:862-886 | until its expiry a queued message with plaintext has its ledger entry, whichever cleanup statements failed |
| Quota.V2DuplicatesCostNothing | internal/mq/v2_store.go:160-256 | in every reachable state a v2 store of a queued message changes nothing and gets the stored receipt, but for a plaintext whose ledger entry a cleanup after the expiry dropped alone |
| Frames.FramesBounded | internal/mq/v2_store.go:400-426 | no recipient ever has more than 100 pending frames |
| Frames.OneReadTakesAllFrames | internal/mq/v2_store.go:434-475 | one read returns every pending frame and one ACK of it leaves none |
| Pinning.ProcessFollowsPin | internal/mq/v2_store.go:83-120 | the policy in memory is empty or the pinned one, and its strictness always the pinned one's |
| Pinning.PinNeverRollsBack | internal/mq/v2_store.go:96-108 | across restarts the pinned epoch never decreases and never changes hash |
| Pinning.SupersededNeverReturns | internal/mq/v2_store.go:277-336 | a row of a superseded policy is never delivered or acknowledged again |
| Pinning.RestartStaysClosed | internal/mq/store.go:127-136 | after a restart a pinned strict policy keeps all v1 traffic closed until a policy is enabled |
| Enrolment.AdmissionChecksAgree | internal/mq/store.go:212-225 | at one instant the SQL test on seconds and the rule on nanoseconds admit the same messages, but for those without a sender key |
| Enrolment.ChecksAgreeIffRangesDo | internal/mq/v2_store.go:614-619 | for any unrevoked identity the two tests agree at all instants if and only if their ranges of instants, one with wrapped products, are the same or both empty |
| Enrolment.ChecksAgreeIffExpiryFits | internal/mq/v2_store.go:614-619 | for an identity with a representable start that the SQL test ever accepts, under a policy that outlives the clock, they agree if and only if the expiry is representable |
| Enrolment.IdentitiesStaySound | internal/mq/v2_store.go:479-562 | a URN's key never changes, serials are unique, a revoked serial is never active |
| Enrolment.EnrolmentIsUnbroken | internal/mq/v2_store.go:520-540 | a live enrolment stems from an enrolment of that URN at the instant it records, live in every state since and unexpired when each next event came |
| Enrolment.IdentityIsCertified | internal/mq/v2_store.go:479-562 | in every reachable state an identity holds key, issuer, serial and validity of one certificate, that of the last enrolment of the URN to succeed |
| Enrolment.NoRetroactiveAuthorisation | internal/mq/v2_store.go:614-619 | a grant that lets a row through stems from an enrolment no later than the row, live without a gap since; row and delivery lie within the last certificate enrolled |
| RowHistory.DeliveredRowsWereAuthorised | internal/mq/store.go:353-457 | a row delivered under a strict policy was stored after its holder had enrolled, that enrolment has been live without a gap until now, and row and delivery lie within the holder's last certificate; a tie is possible only when enrolment and store carry the same nanosecond |
| RowHistory.AckFlipsOnlyInspectedRows | internal/mq/store.go:472-556 | however stores and deletes interleave, a row a strict ACK flips is a row one of its batches inspected and found deliverable |
| ExactlyOnce.LedgerLastsUntilExpiry | internal/mq/store.go:862-886 | a ledger entry survives every step unchanged until its signed expiry |
| ExactlyOnce.AdmittedAtMostOnce | internal/mq/v2_store.go:202-275 | one envelope's bytes create at most one delivery row and one archive row if its commits land before the signed expiry |
| ExactlyOnce.RetryReturnsFirstReceipt | internal/mq/v2_gateway.go:123-133 | until the signed expiry a retry gets the first receipt and changes no table; other bytes or another recipient conflict |
| LateCommit.RepeatableIffLate | internal/mq/v2_store.go:187-275 | a commit can admit an envelope a second time if and only if it lands at or after the signed expiry |
| Archive.HiddenStaysHidden | internal/mq/compliance_store.go:67-95 | within a process a plaintext row that is hidden or already deleted is not shown until an admission writes its ID anew |
| Archive.PlaintextNeverRevives | internal/mq/v2_store.go:257-270 | an archived envelope that is not shown, hidden or deleted, is never shown again by that process: not by retention changes, timely retries or cleanups |
| Archive.FirstSettingIsExact | internal/mq/compliance_store.go:67-95 | the first setting after a start deletes exactly what the configured duration does not keep |
| Archive.LaterSettingsIntersect | internal/mq/compliance_store.go:67-95 | a later setting keeps exactly what both the old and the new duration show |
| Archive.RestartShowsIff | internal/mq/compliance_store.go:67-95 | a start shows a plaintext if and only if it is still stored and the persisted duration reaches back to it; one that had been hidden only if that duration is longer than the one that hid it |
| CleanupView.CleanupIsInvisible | internal/mq/store.go:862-886 | whichever statements succeed, later v1 and v2 batches and their rows, ACK marks of all three queues, archive reads and counts are what they would have been without cleanup |
| AdminConfig.LoadAdminPolicies | internal/config/config.go:210-267 | the overlay loads exactly when no override is out of range, and is the base with the overrides in place |
| AdminConfig.SaveAdminEditableSettings | internal/config/config.go:332-403 | validates every named key, then writes those keys and the live policies, keeping all other overrides |
| AdminConfig.ApplyEditableChanges | internal/api/admin_config_editable.go:136-198 | in any order of the request: accepted exactly when well typed, in range, and safe for relay and compliance |
| AdminConfig.EditableChanges | internal/api/admin_config_editable.go:200-214 | the keys whose value differs, in the console's order |
| AdminConfig.PoliciesRoundTrip | internal/config/config.go:322-403 | saved policies load back as themselves, settings untouched, and startup still accepts |
| AdminConfig.EditRoundTrip | internal/config/config.go:332-357 | an accepted edit loads back as the requested target, its overrides differ exactly at the changed keys, and startup accepts it |
| AdminLaws.InRangeIff | internal/config/config.go:289-318 | the ranges of the six settings |
| AdminLaws.ReadIff | internal/api/admin_config_editable.go:138-178 | how a requested JSON value is read for each setting |
| AdminLaws.EditLoadsBack | internal/api/admin_config_editable.go:136-198 | an accepted edit, saved, loads back with every requested number, flag and text, and nothing else changed |
| AdminLaws.AcceptedIff | internal/api/admin_config_editable.go:179-198 | exactly which edits a running platform accepts |
| AdminLaws.StartsWith | internal/config/config.go:210-248 | a start runs with the override where the file has one and the base otherwise |
| AdminLaws.LoadsIff | internal/config/config.go:210-267 | exactly which override files load |
| AdminLaws.SavedIff | internal/config/config.go:359-403 | what a save needs, and that it writes the four policies and the marker and touches no setting |
| AdminLaws.RelayStartsIff | internal/relay/relay.go:47-57 | the relay starts with positive limits; an unreadable duration leaves its two minutes |
| AdminPolicy.AlwaysSound | internal/api/admin.go:318-389 | the invariant that ties file, marker, registry rows and live policies holds between any two atomic effects |
| AdminPolicy.CrashSafe | internal/api/admin.go:318-451 | a platform serving without a marker on disk runs the persisted storage policy and holds no row written under the other one; between handlers forwarding is the persisted one, history days are the persisted ones as an int32, and the compliance retention differs from the persisted one exactly after a lost change |
| AdminPolicy.RestartIsAccepted | cmd/platform/main.go:88-113 | at any moment the file starts the platform again, with exactly the persisted policies and settings and the owed reset done |
| AdminPolicy.EditChangesExactlyTheRequest | internal/api/admin_config_editable.go:298-371 | an accepted edit changes exactly the requested keys and writes the live policies |
| AdminPolicy.UnrequestedOverridesStay | internal/config/config.go:322-376 | over whole runs an override changes only through an edit that asked for it |
| AdminPolicy.RetentionDriftsIff | internal/api/admin_compliance.go:114-130 | for every outcome of its effects, one retention request parts file and process if and only if the change to another value is neither applied nor taken back |
| AdminPolicy.FailedRollbackHalfSwitches | internal/api/admin.go:353-365 | a failed clear followed by a failed rollback leaves the new policy on disk and the old one live |
| AdminPolicy.PendingSwitchSurvivesIffNoForwarding | internal/api/admin.go:351-451 | after a failed rollback the new storage policy stays on disk, and a restart adopts it, if and only if no forwarding change is saved before |
| AdminPolicy.StorageReaches | internal/api/admin.go:318-389 | an undisturbed storage change ends with the requested value live and on disk, the registry empty and a restart owed; asking for the live value changes nothing |
| AdminPolicy.SettingsReach | internal/api/admin.go:420-599 | an undisturbed forwarding, history or compliance change ends with the requested value live and on disk |
| AdminConsole.Platform.SaveAdminPolicies | internal/config/config.go:322-403 | all four policies and the marker replace those on disk, or nothing changes |
| AdminConsole.Platform.RecoverPendingRegistryReset | cmd/platform/main.go:181-194 | clears, then takes the marker off disk; a failure leaves the marker for the next start |
| AdminConsole.Platform.UpdateStorage | internal/api/admin.go:318-389 | done means the requested value, or the opposite for a toggle, is live and on disk; unchanged exactly when it was live already; the handler equals its atomic steps, rollback and failed rollback included |
| AdminConsole.Platform.UpdateForwarding | internal/api/admin.go:420-451 | done means the requested value is live and on disk; allowed while a restart is pending, keeping its marker |
| AdminConsole.Platform.SetRetention | internal/api/admin.go:541-599 | persists before it applies; anything else changes nothing |
| AdminConsole.Platform.SetComplianceRetention | internal/api/admin_compliance.go:85-136 | persist, apply, and take the file back when applying fails |
| AdminConsole.Platform.SaveEditableConfig | internal/api/admin_config_editable.go:298-371 | a confirmed edit reaches the file once and sets the restart marker; live policies stay |
| Codec.EncodeStringSlice | internal/registry/store.go:273-282 | the builder loop computes base16 items joined by commas |
| Codec.DecodeStringSlice | internal/registry/store.go:284-300 | the scanning loop reads the fields between commas and drops unreadable ones |
| Codec.RoundTrip | internal/registry/store.go:273-300 | decoding an encoded list gives it back, but for the list of one empty string, which decodes to none |
| Codec.FieldsOfText | internal/registry/store.go:284-300 | the fields hold no comma and give the text back when joined |
| Codec.ReadableIff | internal/registry/store.go:284-300 | exactly the fields of paired digits, in either case, are read |
| Codec.HexDigits | internal/registry/store.go:273-282 | base16 in lower case, high digit first |
| Codec.EncodedIsJoined | internal/registry/store.go:273-282 | an encoded list is its items in base16, joined by commas |
| Registry.Store.RegisterWithSignature | internal/registry/store.go:112-161 | accepts exactly an admissible record that is no older than an authentic stored one, and leases it |
| Registry.Store.ResolveEntry | internal/registry/store.go:164-200 | serves a record while its lease runs and its signature verifies, with its decoded lists |
| Registry.Store.ClearAllEntries | internal/registry/store.go:255-260 | leaves no row |
| Registry.Store.Cleanup | internal/registry/store.go:262-270 | drops exactly the rows whose lease is over |
| Registry.AcceptedIff | internal/registry/store.go:112-160 | exactly which records are accepted, in seconds, counts and bytes |
| Registry.NeverRollsBack | internal/registry/store.go:129-160 | accepted timestamps of one URN never decrease, across lease expiry, cleanup and starts with another lease |
| Registry.RollbackIffLongWait | internal/registry/store.go:112-161 | a registration can roll back if and only if more than the shortest lease minus 359 seconds pass between its check and its write |
| Registry.RegisteredIsServed | internal/registry/store.go:112-189 | a registered record is served exactly as registered, lists included, until its lease ends and not beyond, while no other registration is accepted |
| Registry.UnregisteredIsNotServed | internal/registry/store.go:164-189 | a URN nobody registered is not served |

## Left out

- Cryptography, canonical encodings and the SDK: signatures, hashes and parsers are arguments. Theorems that need it assume a collision-free envelope hash or a policy hash that determines its epoch, as premises.
- Mailbox.Store.RetrieveEntry: runs on one snapshot and one clock reading; pages at different moments are the subject of `Paging.InterleavedRetrieval`, each page judged at its own moment with fresh grants. It requires every stored second to lie above the smallest 64-bit integer, where its cursor starts; `Namespace.NamespaceHolds` shows that of every reachable state.
- Mailbox.Store.Ack: runs on one snapshot and one clock reading; batches of a strict ACK interleaved with other transactions are the subject of `RowHistory.AckFlipsOnlyInspectedRows`.
- Mailbox.Store.constructor: does not model the schema migrations that add columns with their defaults.
- Paging.InterleavedRetrieval: an ID deleted and stored again between two pages is another row, and may come back under its later stamp; grants that change between two pages may still be judged from the cache (`Paging.CachedGrantWasEnrolled`).
- Mailbox.Store.CleanUp: one clock reading per pass, as in the source, but the statements of a pass are interleaved with other transactions only in `Runs`, as several partial passes.
- Gateway.AdmitV2: requires what the SDK's envelope check promises, that an envelope conforming to the policy names its hash.
- RowHistory.DeliveredRowsWereAuthorised: leaves the order open when the enrolment and the store carry the very same nanosecond, because the rule compares with at-least.
- RowHistory.AckFlipsOnlyInspectedRows: assumes distinct stores have distinct nanosecond stamps, as the source does.
- The console's confirmation token, revision and preview: one verdict. Equal revisions are equal settings.
- AdminConfig.LoadAdminPolicies: YAML syntax, environment variables and the unrelated checks of the loader.
- Database failures inside a transaction other than those of cleanup and retention: a failed transaction is a step that did not happen.
- Policy epochs beyond the signed 64-bit range of the column.
- Subscriber channels: registration, limits and full channels; only which envelopes are offered to a recipient with subscribers.
- Registry eviction by the operator, which deliberately forgets a timestamp, and the listing endpoints.
- The archive list page: display of the rows whose visibility is proved, newest first.
- HTTP, streaming, authentication, audit log, rate limits, relay and libp2p hosts, the web console.
