# Verification of the ad-seller node's stateful guarantees

This project models the parts of the seller node whose promises live in state, and proves those promises for every input,
every run or every reachable state.

| module | what it models |
|---|---|
| `AuditChain`, `AuditNode`, `AuditStores`, `AuditRuns`, `AuditLaws`, `RotationCrashes`, `CrashRuns` | the hash-chained audit log, its rotation into archived segments, head-hash anchoring, boot verification, crashes inside rotations and runs that go on after them |
| `Pseudonyms`, `KeyRetirement` | one HMAC key per buyer, crypto-shredding, retirement of inactive keys over whole runs |
| `OwnerLease`, `LeaseLaws` | the single-owner lease file: exclusive create, heartbeat, stale and dead-predecessor takeover |
| `Guards`, `Policy`, `Intents`, `Pipeline`, `PipelineLaws`, `PipelineRuns`, `SellerNode` | replay gate, rate limiters, Default-Deny policy, intent store, and the guarded request pipeline under interleaving |
| `Entitlements`, `EntitlementLaws`, `Dsr` | entitlements with the durable erasure and restriction overlay; export and three-stage erasure |
| `Disclosure`, `DisclosureLaws`, `Periods`, `Alternatives`, `AlternativesLaws` | the commercial figure shown to a buyer, the period vocabulary, the availability answer with its top-three alternatives |
| `Der`, `DerLaws`, `SubmissionQueue`, `StoredOnce` | RFC 3161 messages in DER, and the submit-later queue of both external anchor sinks |
| `Revocation`, `Metrics`, `MetricsLaws` | the revocation window of tokens; metric label escaping, counting and rendering |

How the model is built:

- Objects the node updates in place are classes. Their methods carry the loops of the code and are proved against functions
  on values; whole-run results are lemmas about those functions. A `file` field is what a store last saved, and loading is
  construction from it.
- The functions on values are tied in turn to statements that do not use them: the modules ending in `Laws`, and the
  lemmas named `...Exactly`, say in ids, clock readings, bytes and literal constants what each step does, and in every
  case.
- SHA-256, HMAC and the token signature are arbitrary functions or given answers. No injectivity is assumed: where a proof
  would need it, the alternative is a collision between two named entries. The audit hash is only assumed never empty.
- Clock readings, random ids, ad-server answers and submission outcomes are parameters. Synchronous code is one step. The
  request pipeline, the submit-later queue, the forecast snapshot, the availability answer and token validation are split
  where they await, and anything may happen in between.

Results where the code does less than its documentation says, each stated with the exact condition:

- The minimum quantity is tested on the offer before rounding (`src/forecast/disclosure-policy.ts:34-51`), so a figure below
  it can be shown. `Disclosure.MinimumIsHonouredExactly` says for which policies this cannot happen, and
  `Disclosure.MinimumCounterexample` shows one where it does.
- `buyer_id` and `request_id` are outside the entry hash: `AuditChain.UnhashedFieldsAreNotCovered`.
- An accepted ledger may have lost entries at either end: at its tail down to the last anchor
  (`AuditChain.TruncationIsNoticedExactly`), and at its front, as if they had been rotated out, up to the last anchor
  (`AuditChain.PretendedRotationIsNoticedExactly`).
- Before the first anchor a non-empty ledger is refused at boot: `AuditRuns.RestartSafety`, shown by
  `AuditRuns.UnanchoredRestartIsRefused`.
- A rotation makes four saves: ledger, anchor, log entry, archive. A crash after the first can leave a ledger that boot
  refuses, and a crash between the first and the last loses the rotated entries: `RotationCrashes.CrashInsideRotation` says
  exactly when and which, `RotationCrashes.UnanchoredCrashIsRefused` shows a refusal, and
  `RotationCrashes.ScheduledCrashIsAccepted` proves that the anchoring schedule of a running server rules a refusal out. The
  loss it does not rule out: `CrashRuns.CrashesOnlyLose` proves that in any run with any crashed rotations the gaps in the
  archive are exactly what those took, and nothing else suffers.
- Past the horizon no recoverable entry should refer to the buyer of a retired key (`src/audit/retention.ts:151-157`). The
  horizon counts from the last use, but a segment is purged an archive period after it was closed, which is later than its
  entries were a hot period old. `KeyRetirement.RetirementLeavesExactly` says exactly when a retired key leaves an entry in
  the archive, `KeyRetirement.RetiredKeyLeavesAnArchivedEntry` shows one, and `KeyRetirement.OldArchiveLeavesNothing` is a
  condition a caller can look at before the cycle.
- Use of a pseudonym key is not saved, so a cycle after a restart can retire a key with recent entries:
  `KeyRetirement.RestartForgetsUse` says exactly when, `KeyRetirement.FreshEntryLosesItsKey` shows it.
- A restriction is forgotten exactly when the overlay is saved while the configuration in force does not grant the buyer:
  `Entitlements.RestrictionEndures`, with `Entitlements.UngrantedRestrictionIsForgotten` as the shortest run.
- Expiry and denylist are read from the clock at two moments. `Revocation.RevokedIsAcceptedExactly` says exactly when a
  revoked token is accepted, `Revocation.BoundsMeetExactly` which bounds leave no gap for which delay between the readings,
  and `Revocation.AcceptedAcrossTheBound` and `Revocation.AcceptedAfterAFraction` show one that slips through.
- One anchor number can be stored twice at the external store exactly when it is appended twice and reconciles may overlap:
  `StoredOnce.StoredTwiceExactly`. A rotation does anchor a number again: `AuditRuns.RotationAnchorsAgain`.
- The last day of a month reads the years 0 to 99 as 1900 to 1999: `Periods.LastDayIsCalendarExactly`.

## Model

| member | source | states |
|---|---|---|
| AuditChain.AgedCount | src/audit/ledger.ts:101-106 | the prefix that leaves is the longest one older than the cutoff |
| AuditChain.Replay | src/audit/ledger.ts:141-157 | replay reports the first broken link, and success only if every link holds |
| AuditChain.VerifyAfterRestore | src/audit/anchor.ts:202-236 | acceptance means an intact chain and, if anything was anchored, the anchored hash found at the anchored number; each refusal names what failed |
| AuditChain.AppendExtendsHistory | src/audit/ledger.ts:68-96 | an append to the hot part of a genuine history is the hot part of a genuine history one longer |
| AuditChain.RotationMovesTheCut | src/audit/ledger.ts:101-114 | rotating moves only the point where the history is cut |
| AuditChain.AcceptsExactly | src/audit/anchor.ts:202-236 | an untampered ledger is accepted if and only if its last anchor is not older than the entry before the cut, or nothing was anchored and it is empty |
| AuditChain.PinBackwards | src/audit/event.ts:42-62 | a matching hash at one number pins every earlier entry, or shows a collision |
| AuditChain.TamperEvidence | src/audit/anchor.ts:202-236 | any loaded ledger that is accepted against an honest anchor agrees with the honest history up to it on all hashed fields and on the carried link, or a hash collision is on display |
| AuditChain.UnhashedFieldsAreNotCovered | src/audit/event.ts:42-56 | changing buyer_id or request_id of any entry never changes the verdict |
| AuditChain.TruncationIsNoticedExactly | src/audit/anchor.ts:216-233 | a ledger cut short at its end is refused exactly when the cut is below the last anchor |
| AuditChain.PretendedRotationIsNoticedExactly | src/audit/anchor.ts:216-233 | a ledger whose front was cut off as if rotated out is accepted exactly as long as the last anchor reaches what was cut |
| Pseudonyms.PayloadIsSafe | src/audit/pseudonym.ts:74-80 | after pseudonymization a payload holds no raw buyer_id |
| Pseudonyms.FieldAfterWrite | src/audit/pseudonym.ts:74-80 | writing a field changes that field and no other |
| Pseudonyms.PseudonymService.constructor | src/audit/pseudonym.ts:53-61 | a service starts with the keys as saved |
| Pseudonyms.PseudonymService.KeyFor | src/audit/pseudonym.ts:119-131 | a buyer keeps its key, its use is noted in memory, and only a new key is saved |
| Pseudonyms.PseudonymService.Pseudonymize | src/audit/pseudonym.ts:65-69 | the pseudonym is the prefixed MAC under the buyer's own key |
| Pseudonyms.PseudonymService.PseudonymizePayload | src/audit/pseudonym.ts:74-80 | no payload leaves with a raw buyer_id, and payloads without one are untouched |
| Pseudonyms.PseudonymService.Shred | src/audit/pseudonym.ts:84-88 | exactly the one key is gone, from memory and file |
| Pseudonyms.PseudonymService.ShredInactive | src/audit/pseudonym.ts:99-109 | exactly the keys idle since before the cutoff are gone, and their number is returned |
| AuditNode.DueCount | src/audit/retention.ts:91-103 | zero exactly when no segment is due for purging |
| AuditNode.PurgedSegments | src/audit/retention.ts:91-103 | every segment keeps its place, range, count, head hash and closing time; its entries are gone exactly if they were or if it closed before the archive period |
| AuditStores.AuditLedger.constructor | src/audit/ledger.ts:60-66 | loading restores exactly what was saved |
| AuditStores.AuditLedger.Append | src/audit/ledger.ts:68-96 | one entry is added, numbered after and linked to the head, pseudonymized in both places, with the class, request id and time of the call; the state is saved |
| AuditStores.AuditLedger.RotateOut | src/audit/ledger.ts:101-114 | the aged prefix is returned and the rest keeps numbers and carried link |
| AuditStores.AuditLedger.ReplayVerify | src/audit/ledger.ts:141-157 | the loop finds the first failure there is |
| AuditStores.HeadHashAnchor.constructor | src/audit/anchor.ts:134-144 | the records come back as written |
| AuditStores.HeadHashAnchor.Anchor | src/audit/anchor.ts:148-157 | records and their file are only extended |
| AuditStores.RetentionService.constructor | src/audit/retention.ts:44-52 | segments come back as saved |
| AuditStores.RetentionService.Rotate | src/audit/retention.ts:57-86 | rotation of ledger, anchor, log and archive together is the one rotation step of the run model |
| AuditStores.RetentionService.Purge | src/audit/retention.ts:91-103 | exactly the due segments lose their entries, and their number is returned |
| AuditStores.RunRetentionCycle | src/audit/retention.ts:169-181 | rotate, purge and key retirement together are the one cycle step of the run model |
| AuditStores.AnchorHead | src/server.ts:603-608 | an empty ledger or an unmoved head does nothing; otherwise the anchor covers the head before its own log entry |
| AuditStores.RecordAndAnchor | src/identity/token-cli.ts:40-65 | issuing and revoking log first, then anchor the new head |
| AuditRuns.AdvanceIsTheOperation | src/server.ts:603-608 | one step of a run does to the node exactly what the operation does |
| AuditRuns.StepKeepsIntact | src/audit/retention.ts:57-103 | every operation keeps chain, anchors and archive intact even where what left the ledger is not anchored |
| AuditRuns.StepKeepsSound | src/audit/retention.ts:57-103 | every operation keeps: hot ledger is the tail of the true history, anchors pin true hashes, the last anchor reaches the cut, segments tile what left |
| AuditRuns.RunKeepsSound | src/audit/retention.ts:57-103 | so does every run |
| AuditRuns.RestartSafety | src/audit/anchor.ts:202-236 | after any interleaving of appends, anchoring, retention, operator commands, erasures and restarts, boot verification accepts exactly when an anchor exists or the ledger is empty |
| AuditRuns.UnanchoredRestartIsRefused | src/audit/anchor.ts:210-215 | one append and a restart: boot refuses |
| AuditRuns.RotationAnchorsAgain | src/audit/retention.ts:71-72 | under every valid configuration a run whose rotation anchors the number that the periodic anchor anchored before |
| RotationCrashes.CrashInsideRotation | src/audit/retention.ts:57-86 | for a crash after any number of the four saves of a rotation, after any run: boot refuses exactly after the first save when no earlier anchor reaches what left, and exactly the rotated entries are lost between the first save and the last |
| RotationCrashes.UnanchoredCrashIsRefused | src/audit/retention.ts:57-73 | under every valid configuration a run whose crashed rotation leaves a ledger that boot refuses |
| RotationCrashes.StepKeepsAnchored | src/server.ts:787-805 | under a forward clock every step keeps an upper bound on when unanchored entries were stamped, unless two entries of the history share a hash |
| RotationCrashes.ScheduledCrashIsAccepted | src/server.ts:787-805 | if every cycle follows an anchoring of the head within the hot period, a crash anywhere inside any rotation leaves a ledger that boot accepts, unless two entries of the history share a hash |
| CrashRuns.EventKeepsMended | src/audit/retention.ts:57-86 | every step and every crashed rotation keeps: all pieces that ever left cover the numbers that left, and the archive is the pieces that were not lost |
| CrashRuns.CrashesOnlyLose | src/audit/retention.ts:57-86 | after any run with rotations crashed after any of their saves: hot ledger, chain and anchors are genuine, boot accepts exactly when the last anchor reaches what left, and every number that left is in the archive or among what the crashes took, never in both |
| AuditRuns.TamperEvidenceOverRuns | src/server.ts:778-784 | after any run, a replaced ledger file that boot accepts against the node's anchors is genuine up to the last anchor, or shows a collision |
| AuditRuns.RotationConservesHistory | src/audit/retention.ts:57-103 | after any run the segments tile the rotated numbers without gap or overlap, each head hash is what follows links to, unpurged segments hold their true part, and without purging archive plus hot ledger is the whole append history |
| AuditRuns.NothingIsRewritten | src/audit/anchor.ts:128-157 | over any further steps history and anchors are only extended and a segment loses at most its entries |
| AuditRuns.RotateTakesExactlyTheOld | src/audit/ledger.ts:101-106 | under a forward clock the prefix that leaves is exactly the set of older entries |
| AuditRuns.HotIsRecent | src/audit/retention.ts:57-60 | so what stays hot is exactly what is not older than the cutoff |
| AuditLaws.CallIsRecorded | src/audit/ledger.ts:68-96 | an entry has the call's class, request id and time, every payload field but a raw buyer_id as given, and the buyer by a pseudonym of it |
| AuditLaws.HistoryRecordsTheCalls | src/audit/ledger.ts:68-96 | after any run the i-th entry of the history records the i-th call, and there are no other entries |
| AuditLaws.BootVerdictExactly | src/audit/anchor.ts:202-236 | the verdict and the named error for any loaded ledger and anchors, in hashes and links alone |
| AuditLaws.ReplayNamesTheFirst | src/audit/ledger.ts:141-157 | the named entry is the first that does not hash to its hash or does not link to the one before |
| AuditLaws.AnchorHeadExactly | src/server.ts:603-608 | the periodic anchor does nothing exactly when nothing is hot or the head is the last anchored; otherwise it pins the last entry of the history and logs which |
| AuditLaws.OperatorCommandExactly | src/identity/token-cli.ts:40-65 | an operator command leaves its act as the last entry and an anchor of that, and the next boot accepts |
| AuditLaws.RotateCountExactly | src/audit/ledger.ts:101-106 | what leaves is the prefix older than the hot days, in milliseconds |
| AuditLaws.RotationExactly | src/audit/retention.ts:57-86 | a rotation archives exactly that part of the history, pins its last entry and logs which entries left |
| AuditLaws.RetiringExactly | src/audit/retention.ts:91-181 | a cycle empties exactly the segments closed more than the archive months ago and drops exactly the keys idle longer than hot days and archive months together |
| AuditLaws.KeyUseExactly | src/audit/pseudonym.ts:119-131 | what one append does to the key of any buyer: making, last use, or nothing |
| AuditLaws.EraseAndRestartExactly | src/audit/pseudonym.ts:84-88 | an erasure takes one key from memory and file, a restart brings back the saved keys |
| KeyRetirement.StepKeepsTimely | src/audit/pseudonym.ts:119-131 | a key still present was used at most an archive period before each entry of this process run written under it, and the saved store has the same keys and no newer use |
| KeyRetirement.RunKeepsTimely | src/audit/pseudonym.ts:119-131 | so does every run under a forward clock, restarts included |
| KeyRetirement.CycleIsClean | src/audit/retention.ts:169-181 | one cycle rotates exactly the old entries and retires no key with hot entries of this process run |
| KeyRetirement.RetiredKeysHaveNoHotEntries | src/audit/retention.ts:169-181 | the same at the end of every run, for every buyer; without restarts for all entries ever written |
| KeyRetirement.RetirementLeavesExactly | src/audit/retention.ts:151-157 | after any run, a cycle that retires a key leaves a recoverable entry of this process run under it, hot or archived, if and only if a segment closed less than an archive period ago holds one |
| KeyRetirement.OldArchiveLeavesNothing | src/audit/retention.ts:151-157 | if nothing is due for rotation and every unpurged segment closed an archive period ago, a retired key leaves nothing recoverable |
| KeyRetirement.RetiredKeyLeavesAnArchivedEntry | src/audit/retention.ts:151-181 | under every valid configuration a run without restarts in which a key is retired while the archive still holds an entry written under it |
| KeyRetirement.ShreddingIsPermanent | src/audit/pseudonym.ts:82-109 | after an erasure or a retirement no key that any entry of the buyer was written under is in memory or file again, through any steps and restarts, unless drawn anew |
| KeyRetirement.RestartForgetsUse | src/audit/pseudonym.ts:119-131 | after any run and a restart, a cycle retires the key of a recent entry exactly when the saved reading is past the horizon, and the entry stays hot under it |
| KeyRetirement.FreshEntryLosesItsKey | src/audit/pseudonym.ts:99-131 | under every valid configuration a run from a first boot in which this happens to an entry a millisecond old |
| OwnerLease.Lease.Acquire | src/owner-lease.ts:88-118 | the holder's record is in the file on success, nothing of ours changes on refusal, over at most two attempts with whatever other processes do in between; alone, success exactly when the file is free, its heartbeat too old, or of this pid and host and unknown to this process |
| OwnerLease.UnreadableIsTakenOver | src/owner-lease.ts:179-193 | a file that is not a record proves no live owner |
| OwnerLease.Lease.RemoveStale | src/owner-lease.ts:198-209 | only the very record that was judged is removed |
| OwnerLease.Lease.Renew | src/owner-lease.ts:122-132 | yes and a fresh heartbeat for the owner, no and an untouched file for anybody else |
| OwnerLease.Lease.Release | src/owner-lease.ts:160-173 | only one's own record is removed |
| OwnerLease.DeadPredecessorIsDead | src/owner-lease.ts:68-70 | in every sound world a record judged to be a dead predecessor's was written by a process that no longer runs |
| OwnerLease.StepKeepsSound | src/owner-lease.ts:88-132 | every step of every process, every crash and every tick keeps the protocol's invariant |
| OwnerLease.MutualExclusion | src/owner-lease.ts:88-132 | in every run of any number of processes a fresh holder's own record is in the file, so there are never two fresh holders |
| OwnerLease.LostStaysLost | src/owner-lease.ts:122-173 | once replaced, every later renew answers no and release changes nothing, whatever happens in between |
| OwnerLease.LoneContenderAcquiresExactly | src/owner-lease.ts:88-118 | a lone contender ends as holder within two attempts exactly when the file is free, stale or a dead predecessor's, and is refused otherwise |
| LeaseLaws.DeadPredecessorIsTakenOver | src/owner-lease.ts:68-118 | in every sound world a contender that reads a record of its own pid and host whose writer no longer runs goes on to remove it, at any heartbeat age |
| LeaseLaws.StaleLeaseIsTakenOver | src/owner-lease.ts:108-113 | so does one that reads a heartbeat older than the limit, whoever wrote it |
| LeaseLaws.FreshLeaseIsRespected | src/owner-lease.ts:108-113 | a recent lease of a running holder is respected by every contender |
| LeaseLaws.BeginExactly | src/owner-lease.ts:88-98 | a call begins with a record of its own process, as old as the call |
| LeaseLaws.CreateExactly | src/owner-lease.ts:100-107 | exclusive create succeeds exactly if there is no file, and then holds |
| LeaseLaws.RemoveExactly | src/owner-lease.ts:198-209 | a removal takes away exactly the record that was judged |
| LeaseLaws.RenewExactly | src/owner-lease.ts:122-132 | a renewal by the owner moves the heartbeat to now and nothing else; anybody else's changes nothing |
| LeaseLaws.ReleaseExactly | src/owner-lease.ts:160-173 | a release frees the file exactly if it is the owner's |
| LeaseLaws.RecentHolderHasTheFile | src/owner-lease.ts:88-132 | mutual exclusion in heartbeats: a running holder with a recent heartbeat has its own record in the file |
| LeaseLaws.AttemptsAreTwo | src/owner-lease.ts:88-118 | no call ever makes a third attempt |
| LeaseLaws.LoneCallExactly | src/owner-lease.ts:88-118 | a lone call ends as holder unless a record that is recent and not of a dead process of its own pid and host stands in the file |
| LeaseLaws.RestartedProcessAcquires | src/owner-lease.ts:68-118 | a process that restarts with its old pid and host gets the lease at once, however recent the heartbeat |
| Guards.ReplayGuard.constructor | src/audit/replay.ts:17-22 | a new process remembers no request ids |
| Guards.ReplayGuard.IsReplay | src/audit/replay.ts:25-33 | yes exactly within the window, and an expired slot is dropped |
| Guards.ReplayGuard.Record | src/audit/replay.ts:36-38 | the id is blocked until the window after now |
| Guards.ReplayGuard.Prune | src/audit/replay.ts:41-51 | exactly the expired ids go, and their number is returned |
| Guards.RateLimiter.Check | src/rate-limiter/limiter.ts:19-27 | allowed exactly when no request of the buyer was allowed within the window; only an allowed request moves it |
| Policy.Decide | src/policy/engine.ts:21-57 | allowed if and only if the surface is not denied and one entitlement covers surface, scope and phase; the denylist prevails |
| Intents.SelectionSplits | src/intent/store.ts:121-158 | taking intents out splits the store into taken and left, nothing lost or duplicated |
| Intents.SelectionKeepsUnique | src/intent/store.ts:121-158 | the two parts have disjoint ids that together are all ids |
| Intents.RevocableIsOwn | src/intent/store.ts:107-116 | a buyer can revoke exactly its own active unlapsed intent |
| Intents.Split | src/intent/store.ts:121-131 | the one-pass loop takes and keeps exactly what the selection says, in order |
| Intents.LapsedAreExpired | src/intent/store.ts:121-131 | what a sweep hands back is every intent whose expiry is not after the clock, as expired, and nothing else |
| Intents.SelectionKeepsOrder | src/intent/store.ts:121-158 | both parts of a selection are in the store's order |
| Intents.IntentStore.constructor | src/intent/store.ts:163-187 | loading keeps exactly the active intents |
| Intents.IntentStore.Create | src/intent/store.ts:72-93 | one active intent with the caller's terms is added, and it expires at the earlier of its TTL and its price |
| Intents.IntentStore.Revoke | src/intent/store.ts:107-116 | succeeds exactly if the caller holds the intent unlapsed, and then removes it and nothing else |
| Intents.IntentStore.SweepExpired | src/intent/store.ts:121-131 | an intent stays if and only if it expires after the clock; exactly the others are handed back, marked expired |
| Intents.IntentStore.ByBuyer | src/intent/store.ts:141-143 | exactly the buyer's intents |
| Intents.IntentStore.PurgeBuyer | src/intent/store.ts:148-158 | exactly the buyer's intents are gone, and their number is returned |
| Pipeline.StepKeepsGuarded | src/server.ts:243-309 | every step keeps limiter and replay memory ahead of what they let through |
| Pipeline.StepKeepsGated | src/server.ts:154-189 | every step keeps: an authenticated request has its accepted log entry, a handler run has both log entries before it |
| Pipeline.CommitsExactly | src/pricing/store.ts:55-64 | a commitment succeeds if and only if the family's price is declared, not expired and the one the caller named; it carries that price and currency and ends with the earlier of price and TTL |
| Pipeline.CreateMovesBook | src/server.ts:473-500 | a commit adds one intent within its price and TTL with one creation event, or changes nothing |
| Pipeline.RevokeMovesBook | src/server.ts:562-580 | a withdrawal ends one of the caller's own live intents with one terminal event, or changes nothing |
| Pipeline.SweepMovesBook | src/server.ts:589-597 | a sweep ends exactly the lapsed intents with one terminal event each |
| Pipeline.StepKeepsAccounts | src/server.ts:473-597 | every step keeps ledger and intent store in balance |
| Pipeline.IntentConservation | src/intent/store.ts:72-187 | in every interleaving: created ids are the disjoint union of live, revoked, expired and purged; one creation event each, at most one terminal event, for the right buyer; no live intent outlives its price or TTL |
| PipelineLaws.DecisionExactly | src/server.ts:175-189 | the policy allows a request if and only if the grants in force name the buyer with the tool's own surface, the read-only scope and the first phase |
| PipelineLaws.BlocksExactly | src/audit/replay.ts:25-38 | a client id is blocked if and only if it passed the gate in this process less than the window before |
| PipelineLaws.AllowsExactly | src/rate-limiter/limiter.ts:19-27 | the limit lets a buyer through if and only if the tool did not run for it within 30 seconds before, or 2 for a withdrawal |
| PipelineLaws.VerdictTable | src/server.ts:154-171 | a buyer is the subject of a valid token and nothing else; verdict, subject and surface are logged |
| PipelineLaws.HandlerTable | src/server.ts:473-580 | what each tool's handler does with the intents, what it logs, and how it answers |
| PipelineLaws.ForecastTable | src/server.ts:397-416 | a forecast request ends with the source's answer, and only a forecast that was given is logged |
| PipelineLaws.RestartTable | src/server.ts:718-769 | a process start ends what was in flight, forgets guards and keeps ledger and intents |
| PipelineLaws.PurgeTable | src/intent/store.ts:148-158 | an operator erasure takes exactly the buyer's intents and logs nothing |
| PipelineLaws.PruneTable | src/audit/replay.ts:41-51 | pruning forgets exactly the client ids whose window is over |
| PipelineRuns.ArrivalExactly | src/server.ts:251-275 | after any run: which arrivals are refused for a missing key, as a replay, for a missing token, and which go on; exactly the arrivals with an id that did not pass recently add one pass |
| PipelineRuns.AuthorizationExactly | src/server.ts:279-297 | after any run: an authenticated request is turned away by the policy exactly if the grants do not cover its tool, by the limit exactly if the tool ran recently for the buyer, and is handled otherwise, with one run noted under the grants in force |
| PipelineRuns.SweepExactly | src/server.ts:589-597 | after any run: a sweep leaves exactly the intents that expire after it and logs one expiry, for the right buyer, for each other |
| PipelineRuns.NextKeepsTied | src/server.ts:243-309 | every step keeps: runs, passes and domain events belong to requests of their own |
| PipelineRuns.PipelineSafety | src/server.ts:243-309 | in every interleaving: runs of one tool for one buyer are a window apart and one client id passes once per window across all tools; every handler run was authenticated and allowed in the ledger before and covered by the grants in force; every request in a handler or answered with success and every domain event has its own run, every run of a request with a client id its own pass, and no intent was created, revoked or expired without its event |
| SellerNode.Node.constructor | src/server.ts:718-769 | a process start restores ledger and intents and forgets guards, limits and requests |
| SellerNode.Node.PassReplayGate | src/server.ts:264-271 | a replay is refused and changes nothing; any other id is remembered at once |
| SellerNode.Node.PassGates | src/server.ts:251-272 | a missing required key is refused before the replay gate |
| SellerNode.Node.Arrive | src/server.ts:251-275 | the first segment of a request is the pipeline's first step: refused without a required key, refused while its id is remembered, refused without a token, and only then validated |
| SellerNode.Node.Validated | src/server.ts:154-171 | the second segment logs the verdict and takes identity from the token only |
| SellerNode.Node.ResolveScope | src/server.ts:175-189 | allowed if and only if the grants cover the tool's own surface; the decision is logged either way |
| SellerNode.Node.CommitIntent | src/server.ts:473-500 | the commit handler fails closed on price and otherwise commits and logs |
| SellerNode.Node.WithdrawIntent | src/server.ts:562-580 | the revoke handler answers every mismatch alike and otherwise revokes and logs |
| SellerNode.Node.PassLimiter | src/server.ts:290-295 | only the tool's own limiter is asked and moved |
| SellerNode.Node.Authorize | src/server.ts:279-297 | policy, limiter and handler in this order are the pipeline's third step |
| SellerNode.Node.SweepExpiredIntents | src/server.ts:589-597 | the timer logs one expiry per lapsed intent, and an intent stays if and only if it expires later |
| Entitlements.EntitlementStore.constructor | src/policy/entitlements.ts:33-44 | boot is the configuration's grants under the saved overlay, and a legacy overlay is rewritten as hashes |
| Entitlements.EntitlementStore.ApplyOverlay | src/policy/entitlements.ts:49-66 | exactly the restricted, granted, unerased buyers are moved aside |
| Entitlements.EntitlementStore.SuspendBuyer | src/policy/entitlements.ts:90-97 | an active buyer is moved aside and this is saved; otherwise nothing happens |
| Entitlements.EntitlementStore.ReinstateBuyer | src/policy/entitlements.ts:99-106 | the inverse, for a suspended buyer only |
| Entitlements.EntitlementStore.RemoveBuyer | src/policy/entitlements.ts:114-119 | the entry goes and the buyer's hash is saved as erased, entry or not |
| Entitlements.EntitlementStore.Lookup | src/policy/entitlements.ts:78-83 | nothing is served to an erased buyer |
| Entitlements.ErasureIsPermanent | src/policy/entitlements.ts:114-119 | after an erasure every later decision for the buyer is a refusal, through any further operations and restarts under any configurations |
| Entitlements.StepRefinesMachine | src/policy/entitlements.ts:78-119 | each operation moves a buyer through active, restricted and erased as a per-buyer machine says, unless another erased buyer shares its hash |
| Entitlements.StoreRefinesMachine | src/policy/dsr-state.ts:27-40 | so does every run under one configuration, and exactly the active are served, with exactly what is granted |
| Entitlements.BootFollowsConfig | src/policy/entitlements.ts:33-66 | every boot is a state that refinement starts from |
| Entitlements.RestrictionEndures | src/policy/entitlements.ts:33-76 | through anything that happens to other buyers and restarts under any configurations, a restriction stays in the file if and only if no save happened while the configuration in force did not grant the buyer; the buyer's standing follows |
| Entitlements.RestrictionEnduresFromBoot | src/policy/entitlements.ts:33-97 | the same for a restriction put on a granted buyer after a boot |
| Entitlements.RestrictionSurvivesExactly | src/policy/entitlements.ts:49-66 | across a restart a restriction survives exactly when the new configuration grants the buyer |
| Entitlements.UngrantedRestrictionIsForgotten | src/policy/entitlements.ts:69-76 | a run in which another buyer's restriction loses one: the buyer is dropped, somebody else is restricted, the buyer is granted again and served |
| EntitlementLaws.GrantedIsLast | src/policy/entitlements.ts:33-34 | of two entries for one buyer the later one is the grant |
| EntitlementLaws.BootExactly | src/policy/entitlements.ts:33-66 | for any buyer: erased exactly if the file lists its hash, or in an older file its id; otherwise restricted or active exactly as file and configuration say, with the last grant; when the file is rewritten |
| EntitlementLaws.LegacyIdsAreHashed | src/policy/entitlements.ts:37-43 | a rewritten file lists the hashes of the ids it listed |
| EntitlementLaws.RestrictExactly | src/policy/entitlements.ts:90-97 | what a restriction leaves in memory and on file, for the buyer and for everybody else |
| EntitlementLaws.ReinstateExactly | src/policy/entitlements.ts:99-106 | likewise a reinstatement, and it undoes a restriction |
| EntitlementLaws.EraseExactly | src/policy/entitlements.ts:114-119 | an erasure leaves of the buyer its hash and nothing else, in memory and on file |
| Dsr.RecordedMatchesExactly | src/dsr/toolkit.ts:123-127 | an entry carries a pseudonym exactly when written under it or when the caller supplied it as a buyer_id |
| Dsr.MatchedOnce | src/dsr/toolkit.ts:123-127 | the filter finds every matching entry once |
| Dsr.ExportIsExact | src/dsr/toolkit.ts:59-77 | after any run an export has every entry still held that was written under the pseudonym, and no other unless a caller supplied the pseudonym itself |
| Dsr.ExportCoversHistory | src/dsr/toolkit.ts:129-138 | until something is purged, export and reported counts are those of the whole append history, in order |
| Dsr.ErasureIsCrashSafe | src/dsr/toolkit.ts:101-111 | wherever an erasure stops: after the first save the buyer is refused at every later boot, after the second no loadable intent is the buyer's, and the key is destroyed last |
| Dsr.DsrToolkit.MatchEntries | src/dsr/toolkit.ts:123-127 | the filter keeps the matching entries in order |
| Dsr.DsrToolkit.MatchArchived | src/dsr/toolkit.ts:129-138 | purged segments contribute nothing, the others their matches |
| Dsr.DsrToolkit.ExportBuyer | src/dsr/toolkit.ts:59-77 | the export gathers what ledger, archive, overlay and intent store hold under the buyer's current pseudonym |
| Dsr.DsrToolkit.CountCorrelated | src/dsr/toolkit.ts:96-99 | without a key nothing is counted; with one, the entries of ledger and archive under it |
| Dsr.DsrToolkit.EraseInStages | src/dsr/toolkit.ts:101-111 | the three saves come in the crash-safe order |
| Dsr.DsrToolkit.SuppressBuyer | src/dsr/toolkit.ts:92-121 | counts are taken before anything changes, then the three stages run |
| Disclosure.QuantizeAvailability | src/forecast/disclosure-policy.ts:34-51 | the code computes the figure that the laws below, and `DisclosureLaws.DisclosedExactly`, are about |
| Disclosure.LadderFigure | src/forecast/disclosure-policy.ts:40-47 | the ladder loop ends on the step the laws below are about |
| Disclosure.SignificantFiguresAreOptimal | src/forecast/disclosure-policy.ts:49-50 | the figure is the greatest number of the policy's significant figures not above the offer, never above the estimate, and short of the offer by less than offer * 10^(1 - figures) |
| Disclosure.LadderStepIsGreatest | src/forecast/disclosure-policy.ts:40-47 | the figure is the greatest ladder step of the offer's decade not above the offer |
| Disclosure.QuantizedMonotone | src/forecast/disclosure-policy.ts:34-51 | under every valid policy a larger estimate never shows a smaller figure, across decades |
| Disclosure.QuantizedIdempotent | src/forecast/disclosure-policy.ts:34-51 | without haircut and minimum a disclosed figure is disclosed unchanged |
| Disclosure.FiguresAreFixed | src/forecast/disclosure-policy.ts:40-50 | what rounding leaves alone is exactly the numbers with the policy's significant figures, or the ladder steps of their decade |
| Disclosure.MinimumIsHonouredExactly | src/forecast/disclosure-policy.ts:34-51 | "zero or at least the minimum" holds for all estimates exactly when the minimum is zero, has the policy's significant figures, or is a ladder step of its decade |
| Disclosure.MinimumCounterexample | src/forecast/disclosure-policy.ts:34-51 | a policy and an estimate shown below the minimum |
| DisclosureLaws.DisclosedExactly | src/forecast/disclosure-policy.ts:34-51 | a number is disclosed for an estimate if and only if it is zero while estimate times haircut is below one or the minimum, and otherwise the greatest number not above estimate times haircut that the policy's significant figures, or its ladder in that decade, can show |
| Periods.ParsePeriod | src/forecast/period.ts:20-39 | exactly the three spellings are read, as a range of whole months of one year |
| Periods.KeyAgreesWithCompareDates | src/forecast/period.ts:41-43 | the numeric date key orders as the comparison does |
| Periods.LastDayIsCalendarExactly | src/forecast/period.ts:15-17 | the computed last day is the calendar's except for February of the year 0 |
| Periods.ParseInvertsPrint | src/forecast/period.ts:20-39 | every month and quarter in every spelling reads back as its range |
| Periods.QuarterIsItsMonths | src/forecast/period.ts:20-39 | a quarter is its three months end to end, except for the first quarter of the year 0 |
| AlternativesLaws.CompareDatesExactly | src/forecast/period.ts:41-43 | dates compare by year, then month, then day |
| AlternativesLaws.PeriodsAreDays | src/forecast/period.ts:15-39 | a printed month or quarter is the days from its first to its last, by a table of month lengths and the leap rule |
| Alternatives.StoredKeepsSound | src/forecast/gam-source.ts:257-303 | storing a pair replaces its entry and no other, and keeps one entry per pair |
| Alternatives.SnapshotIsLastAnswers | src/forecast/gam-source.ts:257-303 | however refresh cycles overlap, the snapshot has one entry per pair of a configured family: the last answer that came in for it |
| Alternatives.GamForecastSource.Refresh | src/forecast/gam-source.ts:257-303 | after an undisturbed cycle each pair has its new answer or what it had before, and the counts are those of the pairs answered, failed and left out |
| Alternatives.GamForecastSource.RefreshFamily | src/forecast/gam-source.ts:257-303 | the same for one family |
| AlternativesLaws.SkippedExactly | src/forecast/gam-source.ts:270-276 | a refresh leaves out exactly the periods that cannot be read or ended before today |
| AlternativesLaws.RefreshedExactly | src/forecast/gam-source.ts:257-303 | which pairs get a new answer, and as what each pair is counted |
| AlternativesLaws.AskedExactly | src/forecast/gam-source.ts:241-249 | every answer of the snapshot: the one reason why there is none, or the pair's own estimate, served for an hour and a half |
| AlternativesLaws.ListedExactly | src/forecast/gam-source.ts:217-225 | the list is the snapshot in its order without what is no longer served |
| Alternatives.DecideAvailability | src/forecast/engine.ts:79-82 | available exactly when the request is within a positive figure |
| Alternatives.CompareIsTotalPreorder | src/forecast/engine.ts:185-203 | the comparator is a total preorder |
| Alternatives.PeriodOrderIsCalendarOrder | src/forecast/engine.ts:185-188 | readable periods come in calendar order, before unreadable ones |
| Alternatives.SortSorts | src/forecast/engine.ts:189-205 | the candidates end up in order |
| Alternatives.SortPermutes | src/forecast/engine.ts:189-205 | and are the same candidates |
| Alternatives.SortIsStable | src/forecast/engine.ts:189-205 | and equals keep their order |
| Alternatives.AlternativesAreTopThree | src/forecast/engine.ts:178-206 | the offers are an exact top three of the entitled, different, large enough pairs |
| Alternatives.ListedIsAnswered | src/forecast/gam-source.ts:212-249 | a listed pair can be asked about and answers with its own estimate |
| Alternatives.OfferedAlternativesAreAvailable | src/forecast/engine.ts:142-206 | asking for an offered pair on the snapshot it was listed from is answered available with the same figures |
| Alternatives.AnswersAreConsistent | src/forecast/engine.ts:142-176 | the status never contradicts the disclosed figure, which is never above the forecast, and the viewable figure is within the deliverable one |
| AlternativesLaws.CompareExactly | src/forecast/engine.ts:185-199 | the asked family first, then the earlier start with unreadable periods last, then the collation of the family names |
| AlternativesLaws.EligibleExactly | src/forecast/engine.ts:189-193 | a pair may be offered if and only if it is another one, of an entitled family, and its disclosed figure takes the whole volume |
| AlternativesLaws.CandidatesInOrder | src/forecast/engine.ts:189-193 | the candidates are in the order of the list |
| AlternativesLaws.NamedExactly | src/forecast/engine.ts:178-206 | the alternatives are the first three, or all, of the pairs that may be offered, in that order and with their own figures; whatever is left out comes before none of them |
| AlternativesLaws.AnswerExactly | src/forecast/engine.ts:142-176 | every answer: the refusal, or the question back with the figures of the pair's own forecast, the status that follows, and alternatives exactly when the volume does not fit |
| Der.DerLen | src/audit/anchor-tsa.ts:23-28 | the loop writes the length in base 256 behind its count |
| Der.ReadLen | src/audit/anchor-tsa.ts:45-52 | the loop reads the length the round trip is about |
| Der.TsrStatus | src/audit/anchor-tsa.ts:56-68 | the loop reads the status the round trip is about, or names the missing element |
| Der.LengthRoundTrip | src/audit/anchor-tsa.ts:23-52 | reading inverts writing for every length below 2^31, anywhere in a buffer and whatever follows |
| Der.DerLengthIsShortest | src/audit/anchor-tsa.ts:23-28 | no byte string that reads as the length is shorter than the one written |
| Der.HexRoundTrip | src/audit/anchor-tsa.ts:37-43 | a digest survives its hexadecimal form |
| Der.RequestRoundTrip | src/audit/anchor-tsa.ts:37-43 | decoding a request gives version, algorithm, digest and certificate flag back with nothing left over |
| Der.DigestRoundTrip | src/audit/anchor-tsa.ts:37-43 | a request for a digest given in hexadecimal carries that digest |
| Der.StatusRoundTrip | src/audit/anchor-tsa.ts:56-68 | the encoded status is the one read, whatever details, token and trailing bytes follow |
| DerLaws.Sha256RequestIs | src/audit/anchor-tsa.ts:17-43 | the request for a digest of 32 bytes, byte for byte |
| DerLaws.HexStops | src/audit/anchor-tsa.ts:37-38 | reading hexadecimal stops at the first pair that is none |
| DerLaws.OuterIsSequence | src/audit/anchor-tsa.ts:56-58 | which responses are refused at their first byte |
| DerLaws.InfoIsSequence | src/audit/anchor-tsa.ts:59-60 | and behind the outer header |
| DerLaws.StatusIsInteger | src/audit/anchor-tsa.ts:61-62 | and behind the inner one |
| DerLaws.ReadingWraps | src/audit/anchor-tsa.ts:45-67 | a number of any length is read as its value wrapped around to signed 32 bits |
| SubmissionQueue.UnstoredAre | src/audit/anchor-tsa.ts:107-113 | exactly the mirrored records without a stored submission are queued again |
| SubmissionQueue.DeferredSink.constructor | src/audit/anchor-tsa.ts:94-100 | memory starts from the submissions file |
| SubmissionQueue.DeferredSink.Append | src/audit/anchor-s3.ts:69-72 | a record is mirrored and queued, and queued even when the mirror write fails |
| SubmissionQueue.DeferredSink.ReadAll | src/audit/anchor-s3.ts:74-78 | a boot queues exactly what is not stored |
| SubmissionQueue.DeferredSink.Reconcile | src/audit/anchor-tsa.ts:121-138 | every queued record is stored or queued again, in order |
| SubmissionQueue.NoSubmissionIsLost | src/audit/anchor-tsa.ts:102-138 | over every interleaving of appends, overlapping reconciles, outcomes and restarts each mirrored record is stored, pending or in flight |
| SubmissionQueue.NothingIsStoredTwice | src/audit/anchor-s3.ts:84-115 | without overlapping reconciles no number is stored twice |
| SubmissionQueue.OverlapStoresTwice | src/audit/anchor-tsa.ts:121-138 | the shortest run in which it happens: overlap and one number twice |
| StoredOnce.FreshIsStoredOnce | src/audit/anchor-tsa.ts:102-138 | numbers appended once are stored at most once, under any overlap, failures and restarts |
| StoredOnce.StoredTwiceExactly | src/audit/anchor-s3.ts:69-115 | from a first boot, records can be stored twice in some interleaving if and only if reconciles may overlap and a number is appended twice |
| SubmissionQueue.DrainIsARun | src/audit/anchor-tsa.ts:121-138 | the loop's result is what the interleaving model reaches undisturbed |
| SubmissionQueue.DrainExactly | src/audit/anchor-tsa.ts:121-138 | in one pass a number is newly stored exactly if it was not and a submission of it succeeded, and once; what failed is queued again; nothing else happens to a record |
| SubmissionQueue.FileIsAcknowledged | src/audit/anchor-tsa.ts:121-138 | over every interleaving the submissions file grows by exactly what the store acknowledged, in that order |
| Revocation.Denylist.constructor | src/identity/denylist.ts:70-97 | loading keeps exactly the entries that are not over |
| Revocation.Denylist.Add | src/identity/denylist.ts:36-40 | the entry is in memory and file at once |
| Revocation.Denylist.Has | src/identity/denylist.ts:42-50 | yes exactly before the bound, and an entry that is over is dropped from memory only |
| Revocation.Denylist.Prune | src/identity/denylist.ts:53-64 | exactly the entries that are over go |
| Revocation.Denylist.Validate | src/identity/validator.ts:19-55 | signature and expiry at the first clock reading, then the token id, then the denylist at the second |
| Revocation.EntryHolds | src/identity/denylist.ts:36-97 | memory and file hold a revocation with exactly its last bound until that is past, through lookups, prunings, reloads and further revocations |
| Revocation.RevokedIsAcceptedExactly | src/identity/validator.ts:19-45 | after any later history a revoked token that verifies is accepted if and only if it was not expired when verified and its last bound is past when the denylist is asked |
| Revocation.VerdictExactly | src/identity/validator.ts:19-55 | the verdict on any token after any history from an empty denylist, restarts included: each of the four outcomes exactly when |
| Revocation.BoundsMeetExactly | src/admin/cli.ts:64-73 | for any bound and any delay between the two readings there is no gap if and only if the token has expired that delay before the bound ends |
| Revocation.OwnBoundMeetsExactly | src/admin/cli.ts:70-74 | the token's own bound leaves no gap for one reading exactly for seamless expiries, always one for readings apart on a whole-second expiry, and none if padded by a second and the delay |
| Revocation.RevocationLeavesNoGap | src/identity/validator.ts:19-55 | a revoked token with a seamless expiry is rejected whenever both readings are on one side of its bound, at every later time |
| Revocation.AcceptedAcrossTheBound | src/identity/denylist.ts:42-50 | a revoked token that is accepted: verified a millisecond before its bound, asked about at it |
| Revocation.AcceptedAfterAFraction | src/identity/validator.ts:19-45 | a revoked token that is accepted with both readings at once: its expiry has a fraction |
| Metrics.EscapeIsPerCharacter | src/metrics/registry.ts:96-98 | the three replacements together are one map on characters |
| Metrics.QuotedReadsBack | src/metrics/registry.ts:96-98 | an escaped label value reads back, whatever follows its closing quote |
| Metrics.EscapeIsInjective | src/metrics/registry.ts:96-98 | different values have different escapes |
| Metrics.JoinedIsInjective | src/metrics/registry.ts:102-106 | different label tuples have different texts |
| Metrics.BelongsToOne | src/metrics/registry.ts:138-142 | a series key belongs to its own metric only |
| Metrics.SeriesNeverMerge | src/metrics/registry.ts:102-106 | two keys are equal exactly for one metric with equal labels |
| Metrics.KeysTellSeriesApart | src/metrics/registry.ts:116-121 | increments share a key exactly when they are for one series |
| Metrics.MetricsRegistry.Increment | src/metrics/registry.ts:116-121 | an unknown name is refused; otherwise one series goes up by one, and every series stands at its number of increments |
| Metrics.MetricsRegistry.Render | src/metrics/registry.ts:132-143 | the loops print the sections the laws below are about |
| Metrics.RenderedPrints | src/metrics/registry.ts:132-143 | a series is printed once per metric it belongs to, and only series are printed |
| Metrics.OwnedOnce | src/metrics/registry.ts:138-142 | and it belongs to exactly one of the registry's metrics |
| Metrics.EachSeriesIsPrintedOnce | src/metrics/registry.ts:132-143 | so each series is printed exactly once, with its number of increments |
| Metrics.CountersAreWellNamed | src/metrics/registry.ts:60-85 | the declared names are distinct and brace-free, as the laws assume |
| MetricsLaws.EscapedExactly | src/metrics/registry.ts:96-98 | how backslash, quote and newline are written, that every other character stands for itself, and that values are written character by character |
| MetricsLaws.SeriesReadsBack | src/metrics/registry.ts:102-106 | a series' text is its metric's name and, in braces, its labels, which a reader gets back in the metric's order |
| MetricsLaws.DeclaredExactly | src/metrics/registry.ts:116-119 | an increment is refused exactly for an undeclared name |
| MetricsLaws.HeadersExactly | src/metrics/registry.ts:132-143 | every declared metric has its two headers once and in order, and each sample stands under its own metric's |

## Left out

- HTTP and stdio transport, MCP wiring, sessions, command-line text, health checks and configuration paths: no deep state.
- Schema validation of inputs and of disclosed responses, error envelopes, catalog and well-known documents: single-branch checks that would only add easy members.
- The inside of SHA-256, HMAC, RS256 and JWT parsing; OAuth, SOAP, XML and S3 calls: functions or given outcomes.
- File bytes, JSON text, torn writes and failed saves: a save is one step and a load restores what was saved. Legacy file formats of ledger, anchor and key store, and the inference of a legacy ledger's numbering, are not part of this model.
- Crashes inside synchronous code, except inside a rotation (`RotationCrashes.CrashInsideRotation`, `CrashRuns.CrashesOnlyLose`) and inside an erasure (`Dsr.ErasureIsCrashSafe`).
- OwnerLease.MutualExclusion: file operations are atomic and hosts share one clock; the moment between reading and unlinking, the moment between creating and writing, clock skew, and files damaged by somebody else are not covered.
- OwnerLease.Lease.Acquire: a record with an unreadable heartbeat and a heartbeat timer that fires late are not modelled.
- Disclosure.QuantizeAvailability: amounts are exact; binary rounding of the haircut product and numbers from 10^21 on, whose printed form is no longer their digits, are left out.
- Disclosure.LadderFigure: likewise for binary rounding of a ladder step.
- KeyRetirement.RetiredKeysHaveNoHotEntries: assumes a clock that never goes back and that one append takes no longer than the archive period; across a restart it speaks of the entries since, and `KeyRetirement.RestartForgetsUse` says what happens to the earlier ones.
- KeyRetirement.RetirementLeavesExactly: likewise.
- RotationCrashes.ScheduledCrashIsAccepted: the schedule is an assumption about the order and spacing of the server's timers, which are not modelled.
- PipelineRuns.PipelineSafety: limits and replay windows are in memory, so they hold within one process run; a clock that goes back is not covered.
- SellerNode.Node.Authorize: the disclosure check of the response and the handoff to the sales rails are left out; forecasts of the request's two read tools appear only as success or failure.
- Revocation.RevocationLeavesNoGap: for seamless expiries, which include every whole second, both readings on one side of the bound, and a last bound not before the token's own; `Revocation.RevokedIsAcceptedExactly` covers the rest.
- Alternatives: Array sorting is modelled as a stable insertion sort, and locale comparison as an arbitrary order given by sort keys. The synthetic forecast source and its buckets are not part of this model.
- Intents and the forecast snapshot keep their maps as sequences in insertion order; other maps, whose order no result depends on, are maps.
- Metrics.MetricsRegistry.Render: gauges and the final joining of lines into text are left out; help texts are a parameter.
- Alternatives.GamForecastSource.Refresh: states what a cycle does when nothing else is at work and its clock is read once; `Alternatives.SnapshotIsLastAnswers` covers overlapping cycles.
- Alternatives.GamForecastSource.RefreshFamily: likewise.
- Dsr.DsrToolkit.ExportBuyer: the free-text note is left out.
- The merge of a failed mirror write back into the local file is not modelled: the queue results speak of mirrored records.
