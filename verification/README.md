# Verification of pg-kinetic

pg-kinetic is a PostgreSQL proxy that pools connections per transaction. This project models the parts of it whose
correctness is not visible from any one function, and proves what they promise.

- **Prepared statements.** Client statement names are replaced by generated backend names and each backend's statements
  are cached per session. `Prepared`, `PreparedLog`, `PreparedCounts` and `PreparedCatalog` model the catalog,
  `Messages` and `Names` the frames and names, `Virtualisation` any number of sessions over shared backends that may lose or refuse statements
  at any time; `Availability` and `Acknowledgement` say when a catalog believes too much or too little, `KnownBinds`
  and `RawNames` what a Bind finds then, `KnownFrames` what the other frames leave as.
- **The backend pool.** `PoolProtocol`, `PoolSafety` and `PoolTheorems` model pools sharing one semaphore as interleaved
  atomic operations, `PoolLeaks`, `PoolLimit`, `PoolClock` and `PoolQueue` sharper results about them, `PoolRuns` runs that
  show some; `Reaping` is the reaper's choice, `PoolStore` the same calls as a class, `Selector` replica selection.
- **Cancel forwarding.** `Cancel` interleaves bind, unbind, acquire and lease drop; `CancelHistory` traces a lease to
  its bind, `CancelSessions` adds the sessions.
- **Read routing.** `Routing` models the planner and the policy overlay.
- **The circuit breaker.** `Breaker` models it over event histories.
- **Codecs.** `Frames`, `Startup`, `BackendMessages`, `SqlStates`, `Lsn`, `Fingerprint`, and both halves of SCRAM in
  `ScramText`, `Scram`, `ScramAgreement` and `ScramSession`, and of MD5 authentication in `Md5`.

Code that updates fields or loops is a class or a method proved against a specification function; pure code is
functions; protocols are state machines whose actions are single atomic operations. Strings are their UTF-8 bytes.
Clocks, nonces, hash functions, SQL tokens, query class and hint, and the backends' behaviour are inputs.

Where the code does less than one would expect of it, a lemma shows an input and another gives the exact condition:

- A checkout that times out during its connect keeps its pool slot for good; a release dropped while it waits for the
  queue lock keeps its slot and its semaphore permit. No client of a pool is ever served again if and only if all its
  slots, or all permits of its semaphore, went this way (`StarvedIff`, `TimeoutStarves`, `LostPermitStarves`).
- Discarding, dropping and reaping give back permit and slot before the connection closes, so pools can have more
  connections open than the semaphore allows, and one pool more than its maximum (`OverLimitIff`,
  `DiscardPassesLimit`, `OverMaxIff`, `DropPassesMax`).
- `idle_backends` is left wrong by a reap or retirement that stores while a return is between its push and its
  increment (`IdleCounterOffByMiss`, `StoreMisses`, `ReaperMakesCounterDrift`). It goes below zero, where the unsigned
  counter wraps, for good after a retirement that missed a return, and for a moment whenever a checkout overtakes an
  increment (`StoreMisses`, `NegativeAfterStoreIff`, `NegativeBeforeStoreIff`, `RetirementGoesNegative`,
  `CheckoutGoesNegative`).
- Names a catalog does not know go to the backend as written. A Close of a generated name takes the statement from the
  session that relies on it, whose Binds miss until the backend's error makes it prepare again (`NextAvailableIff`,
  `KnownBindMisses`, `BindRecovers`), and a Bind of one runs that session's statement (`UnknownBindIff`,
  `ForeignBindResolves`).
- An error that makes a catalog forget a backend that still holds a statement makes the next Bind repeat its Parse,
  which PostgreSQL refuses together with the Bind behind it (`NextAcknowledgedIff`, `RepeatedParseRefused`,
  `BindResolvesIff`); the Bind after that succeeds (`BindFailsOnce`).
- Errors the proxy builds with codes outside its enumeration do not read back (`ErrorReadsBackIff`,
  `AuthFailureNotReadBack`).
- The breaker's failure count stops at the threshold (`CountIsExactIff`, `CountStops`), and a checkout that takes its
  probe and fails reports nothing, so nothing is admitted until another lease reports (`ProbeBlocksUntilReport`).
- Forcing a replica by policy is not monotone in the replicas in one configuration (`OverlayMonotoneIff`,
  `RelaxedLosesReplica`).
- A replica target supplied by the caller is rechecked for health and configured freshness only (`SuppliedReplicaIff`,
  `SuppliedReplicaInTransaction`).
- The fingerprint folds a list only after ` in`, with the space (`InListIgnoredIff`, `LeadingInIsNotCollapsed`), and
  truncating it panics when the cut falls inside a multi-byte symbol (`Fingerprint`, `StraddlingSymbolPanics`).

## Model

| member | source | states |
|---|---|---|
| Names.BackendNameInjective | crates/pg-kinetic-core/src/protocol/prepare.rs:106 | Two generated names are equal only for the same session and key. |
| Names.BackendNameIsName | crates/pg-kinetic-core/src/protocol/prepare.rs:106 | Every generated name is a nonempty NUL-free UTF-8 string, so it survives the wire. |
| Names.BackendNameReads | crates/pg-kinetic-core/src/protocol/prepare.rs:106 | It is `pgk_`, the session and the key in that order, as decimal numbers without leading zeros. |
| PreparedCatalogs.PreparedCatalog.SetRouteMapGeneration | crates/pg-kinetic-core/src/protocol/prepare.rs:73-81 | The in-place update stays equal to replaying the event log with this call appended: only a changed generation empties cache and counts. |
| PreparedCatalogs.PreparedCatalog.Upsert | crates/pg-kinetic-core/src/protocol/prepare.rs:83-133 | Equal to the extended replay; the caller gets the name's new record, under a fresh key and backend name unless unnamed. |
| PreparedCatalogs.PreparedCatalog.Remove | crates/pg-kinetic-core/src/protocol/prepare.rs:146-152 | Equal to the extended replay; the caller gets the record that was there, if any, and its cached traces are gone. |
| PreparedCatalogs.PreparedCatalog.MarkMaterialized | crates/pg-kinetic-core/src/protocol/prepare.rs:175-186 | Equal to the extended replay; unnamed and outdated records leave no mark. |
| PreparedCatalogs.PreparedCatalog.InvalidateForSqlState | crates/pg-kinetic-core/src/protocol/prepare.rs:188-214 | Equal to the extended replay through the nested counting loops, for each scope an error can have. |
| PreparedCatalogs.PreparedCatalog.QueryMaterialized | crates/pg-kinetic-core/src/protocol/prepare.rs:159-173 | For a held named current record the answer is the naive one read off the log. |
| PreparedCatalogs.PreparedCatalog.CountBackends | crates/pg-kinetic-core/src/protocol/prepare.rs:244-260 | The loop counts exactly the backends that hold the record's key. |
| PreparedCatalogs.PreparedCatalog.MaterializedBackendCount | crates/pg-kinetic-core/src/protocol/prepare.rs:244-260 | For a held named current record the count is the number of backends marked per the log. |
| PreparedLog.ReplayWellFormed | crates/pg-kinetic-core/src/protocol/prepare.rs:57-214 | After any history of calls, keys are unused above the counter and every cached key is one that was handed out. |
| PreparedLog.IssuedUnique | crates/pg-kinetic-core/src/protocol/prepare.rs:83-133 | No two records ever handed out in a session share a key. |
| PreparedLog.MaterializedIsMarkedPerLog | crates/pg-kinetic-core/src/protocol/prepare.rs:159-173 | For a held current record, the cached answer equals the naive one read off the event log: marked there, with no later re-prepare, close, matching invalidation or generation change. |
| PreparedLog.CountIsMarkedPerLog | crates/pg-kinetic-core/src/protocol/prepare.rs:244-260 | The backend count is the number of backends that are marked per the log. |
| PreparedLog.InvalidationCounts | crates/pg-kinetic-core/src/protocol/prepare.rs:188-214 | An invalidation raises a statement's count by exactly the backends it stopped being materialized on. |
| PreparedLog.AllBackendsInvalidation | crates/pg-kinetic-core/src/protocol/prepare.rs:188-214 | An all-backends error raises the count by the number of backends marked per the log and leaves none. |
| PreparedLog.ErrorEndsMarks | crates/pg-kinetic-core/src/protocol/prepare.rs:188-214 | What each SQLSTATE does, over every log and every backend: a missing statement ends the reporting backend's mark, an unsupported feature or an undefined table or column every backend's, any other error none. |
| PreparedCounts.CountIsPerLog | crates/pg-kinetic-core/src/protocol/prepare.rs:217-242 | Over every log, the invalidation count of a held statement is the number of its marks that errors ended since it was prepared or the generation changed. |
| PreparedCounts.ForgottenLeavesNoTrace | crates/pg-kinetic-core/src/protocol/prepare.rs:262-279 | A statement closed or prepared anew leaves no mark on any backend, no count, and its key to nobody. |
| Virtualisation.RunInv | crates/pg-kinetic-proxy/src/proxy/forwarding.rs:831-928 | Every step of every run of sessions over wiped and shared backends keeps the invariant the theorems rest on. |
| Virtualisation.OneStatementPerName | crates/pg-kinetic-proxy/src/proxy/forwarding.rs:831-928 | In every run, all Parse messages ever sent under one generated name carry the same query and parameter types. |
| Virtualisation.CatalogRefinesClient | crates/pg-kinetic-proxy/src/proxy/forwarding.rs:831-928 | In every run, each catalog stands for exactly its client's own map from name to query and types. |
| Virtualisation.BindNeverMisresolves | crates/pg-kinetic-proxy/src/proxy/forwarding.rs:831-928 | In every run, a Bind of a known name leaves unchanged but for that name, for one the backend does not hold or holds with what this client prepared. |
| KnownBinds.BindResolvesIff | crates/pg-kinetic-proxy/src/proxy/forwarding.rs:853-881 | In every run, that Bind finds its statement as prepared if and only if the backend holds it and the catalog believes so, or neither and the Parse sent first is accepted. |
| KnownFrames.DescribeResolvesIff | crates/pg-kinetic-proxy/src/proxy/forwarding.rs:882-905 | In every run, a Describe of a known name leaves for its backend name, and finds its statement under exactly the condition of a Bind. |
| KnownFrames.CloseDrops | crates/pg-kinetic-proxy/src/proxy/forwarding.rs:908-919 | In every run, a Close of a held name leaves alone, for its backend name; accepted, the backend holds all but that name and the catalog all but that statement. |
| KnownFrames.ParseStores | crates/pg-kinetic-proxy/src/proxy/forwarding.rs:838-853 | In every run, a Parse leaves alone, under a name never sent before unless it is unnamed; accepted, the backend holds it as written and all else as before. |
| KnownFrames.OthersLeaveAsWritten | crates/pg-kinetic-proxy/src/proxy/forwarding.rs:831-928 | Exactly the malformed frames are errors; every other frame the catalog has nothing to do with leaves alone and as written. |
| KnownFrames.UnnamedPasses | crates/pg-kinetic-core/src/protocol/prepare.rs:159-167 | Binds and Describes of the unnamed statement leave alone and unchanged. |
| Availability.NextAvailableIff | crates/pg-kinetic-proxy/src/proxy/forwarding.rs:831-928 | From a state in which no catalog believes too much, a step keeps that if and only if it wipes no relied-on name, passes on no unread Close of one, and refuses no Parse of a name the backend lacks. |
| Acknowledgement.NextAcknowledgedIff | crates/pg-kinetic-core/src/protocol/prepare.rs:159-214 | From a state in which no catalog believes too little, a step keeps that if and only if it is no error that makes a catalog forget a backend holding a statement it knows, and no change of generation back to such a one. |
| KnownBinds.BindRecovers | crates/pg-kinetic-core/src/protocol/prepare.rs:188-214 | In every run, after a backend that lacks a statement reports so, the session's next accepted Bind of it there finds it, whatever happens elsewhere in between. |
| KnownBinds.BindFailsOnce | crates/pg-kinetic-proxy/src/proxy/forwarding.rs:853-881 | In every run, a Bind of a statement its backend holds and its catalog has forgotten fails, and the next one finds it. |
| RawNames.ForeignCloseMisses | crates/pg-kinetic-proxy/src/proxy/forwarding.rs:907-928 | In every state, an unread Close of a generated name makes the next Bind of the session that relies on it miss. |
| RawNames.KnownBindMisses | crates/pg-kinetic-proxy/src/proxy/forwarding.rs:907-928 | A run without wipe or refusal in which a known Bind misses this way, for any name and statement. |
| RawNames.UnknownBindIff | crates/pg-kinetic-proxy/src/proxy/forwarding.rs:853-928 | In every run, an unknown Bind leaves as written and finds a statement if and only if the backend holds that name, which is then a generated one. |
| RawNames.ForeignBindResolves | crates/pg-kinetic-proxy/src/proxy/forwarding.rs:853-928 | A run in which a session that prepared nothing binds another's generated name and finds its statement. |
| RawNames.RepeatedParseRefused | crates/pg-kinetic-proxy/src/proxy/forwarding.rs:853-881 | A run without wipe, refusal or foreign Close in which an unrelated error makes a known Bind fail, for any name and statement. |
| KnownBinds.BindAlwaysResolves | crates/pg-kinetic-proxy/src/proxy/forwarding.rs:831-928 | In every run of steps that leave no catalog believing too much or too little, an accepted Bind of a known name finds its statement as prepared: no needed Parse is skipped and none repeated. |
| Messages.RewriteParseThenParse | crates/pg-kinetic-wire/src/rewrite.rs:7-24 | Parsing a rewritten Parse gives the new name with query and types, and every byte after the name is unchanged. |
| Messages.RewriteParseTwice | crates/pg-kinetic-wire/src/rewrite.rs:7-24 | The last of two Parse rewrites wins. |
| Messages.RewriteBindThenParse | crates/pg-kinetic-wire/src/rewrite.rs:26-46 | Parsing a rewritten Bind gives the new name with portal and trailing bytes unchanged. |
| Messages.RewriteBindTwice | crates/pg-kinetic-wire/src/rewrite.rs:26-46 | The last of two Bind rewrites wins. |
| Messages.RewriteTargetThenParse | crates/pg-kinetic-wire/src/rewrite.rs:48-83 | Describe and Close of a statement read back the new name; those of a portal are untouched. |
| Messages.BuildParseFrame | crates/pg-kinetic-wire/src/rewrite.rs:113-130 | The loop builds the frame that lays out name, query, count and types. |
| Messages.ParseIff | crates/pg-kinetic-wire/src/message.rs:33-67 | A frame parses to a Parse message if and only if it starts with what the proxy would write for it, with good strings and at most 32767 types. |
| Messages.ParseInvertsBuild | crates/pg-kinetic-wire/src/message.rs:33-67 | Parsing inverts building if and only if the strings are NUL-free and there are at most 32767 types. |
| Frames.ByteBuffer.ParseFrontendFrame | crates/pg-kinetic-wire/src/frame.rs:14-35 | Consumes exactly the frame at the front, or nothing when it is incomplete or invalid. |
| Frames.ByteBuffer.ParseBackendFrame | crates/pg-kinetic-wire/src/backend.rs:137-160 | Consumes the same bytes as the frontend parser in every case. |
| Frames.ByteBuffer.AppendAndDrain | crates/pg-kinetic-wire/src/frame.rs:14-35 | Appending a chunk and parsing until stuck yields all whole frames and leaves the rest. |
| Frames.NextFrameIffEncoded | crates/pg-kinetic-wire/src/rewrite.rs:105-111 | A buffer starts with a frame if and only if it is that frame's encoding and the rest, with the length in 32 bits. |
| Frames.ChunkInvariance | crates/pg-kinetic-wire/src/frame.rs:14-35 | However a stream is cut into chunks, the frames and the leftover are those of the whole. |
| Frames.DrainConserves | crates/pg-kinetic-wire/src/frame.rs:14-35 | Re-encoding the frames and appending the leftover gives the bytes received. |
| Frames.DrainEncodeAll | crates/pg-kinetic-wire/src/rewrite.rs:105-111 | Any encoded sequence of frames is read back as itself. |
| Reaping.ScanIdle | crates/pg-kinetic-proxy/src/pool.rs:303-338 | The scan splits the queue as the specification does, whatever is expired and whatever the minimum. |
| Reaping.ReapCounts | crates/pg-kinetic-proxy/src/pool.rs:303-338 | Exactly min(expired, idle above the minimum) go, all expired; the rest stay and the queue never falls below min(length, minimum). |
| Reaping.EvictedComeFirst | crates/pg-kinetic-proxy/src/pool.rs:303-338 | The evicted are the expired ones before a point of the queue; all others keep their order. |
| Reaping.EvictedIffDue | crates/pg-kinetic-proxy/src/pool.rs:314-331 | Only a backend idle for a nonzero idle timeout or as old as a nonzero maximum lifetime goes, and while more than the minimum is left every such one does. |
| Reaping.NoTimeoutNoEviction | crates/pg-kinetic-proxy/src/pool.rs:314-331 | With both timeouts zero the queue is left as it was. |
| PoolClock.EntryIsStamped | crates/pg-kinetic-proxy/src/pool.rs:227-259 | In every run, a tracked backend's entry reads when it was registered and when it was last given back. |
| PoolClock.ReapedIsDue | crates/pg-kinetic-proxy/src/pool.rs:303-338 | In every run, a reaped backend was last given back a nonzero idle timeout ago or registered a nonzero maximum lifetime ago. |
| PoolClock.DueIsReaped | crates/pg-kinetic-proxy/src/pool.rs:303-338 | And every backend on the queue for which that holds is reaped while more than the minimum is left. |
| PoolStores.BackendStore.TryCheckoutIdle | crates/pg-kinetic-proxy/src/pool.rs:189-194 | Takes the front of the queue, which is then out; counters stay in step. |
| PoolStores.BackendStore.ReserveBackendSlot | crates/pg-kinetic-proxy/src/pool.rs:196-225 | Succeeds if and only if a slot and, with a semaphore, a permit are left; otherwise nothing is held. |
| PoolStores.BackendStore.ReleaseReservedSlot | crates/pg-kinetic-proxy/src/pool.rs:274-279 | Gives back the slot and the permit in hand. |
| PoolStores.BackendStore.RegisterBackend | crates/pg-kinetic-proxy/src/pool.rs:227-245 | The reserved slot becomes a tracked backend with its permit. |
| PoolStores.BackendStore.ReturnBackend | crates/pg-kinetic-proxy/src/pool.rs:247-259 | The backend joins the back of the queue with its release time; slots and permits are unchanged. |
| PoolStores.BackendStore.DiscardBackend | crates/pg-kinetic-proxy/src/pool.rs:261-272 | Slot and permit go back and the backend is tracked no more; permits are conserved. |
| PoolStores.BackendStore.ReapIdle | crates/pg-kinetic-proxy/src/pool.rs:303-357 | The queue becomes what the reaper retains, and slots, permits and entries of exactly the evicted go back. |
| PoolStores.BackendStore.RetireIdle | crates/pg-kinetic-proxy/src/pool.rs:359-381 | The queue empties and exactly its backends' slots, permits and entries go back. |
| PoolSafety.NextInv | crates/pg-kinetic-proxy/src/pool.rs:189-381 | Every atomic operation of every task keeps the pool invariant: books, places, leases, counters and permits. |
| PoolSafety.RunInv | crates/pg-kinetic-proxy/src/pool.rs:189-381 | So does every interleaving. |
| PoolTheorems.SlotAccounting | crates/pg-kinetic-proxy/src/pool.rs:196-285 | Always, active = idle + slots held by tasks + dropped connects + dropped releases, and at most the maximum. |
| PoolTheorems.PermitConservation | crates/pg-kinetic-proxy/src/pool.rs:196-279 | Always, free + stored + in-hand permits over all pools = the semaphore's capacity, dropped connects included. |
| PoolTheorems.GlobalLimit | crates/pg-kinetic-proxy/src/pool.rs:196-279 | Over all pools on the semaphore, usable backends and permits in hand never exceed its capacity. |
| PoolLimit.LiveConnections | crates/pg-kinetic-proxy/src/pool.rs:261-279 | Exactly how many connections are open over the pools on the semaphore: the permits neither free, lost nor dialling, and one for each whose permit went back first, until it is dropped itself. |
| PoolLimit.OverLimitIff | crates/pg-kinetic-proxy/src/pool.rs:2112-2140 | They pass the limit if and only if the latter outnumber the free, lost and dialling permits. |
| PoolRuns.DiscardPassesLimit | crates/pg-kinetic-proxy/src/pool.rs:2112-2117 | A run with two connections open under a limit of one. |
| PoolLimit.PoolConnections | crates/pg-kinetic-proxy/src/pool.rs:340-377 | Exactly how many connections one pool has open: the slots taken, without those leaked or not connected, and one for each connection whose slot went back first. |
| PoolLimit.OverMaxIff | crates/pg-kinetic-proxy/src/pool.rs:2112-2140 | They pass the maximum if and only if the latter outnumber the slots free, leaked or not connected. |
| PoolRuns.DropPassesMax | crates/pg-kinetic-proxy/src/pool.rs:2131-2140 | A run in which a pool of one has two connections open, one of a dropped lease. |
| PoolTheorems.MapsAgree | crates/pg-kinetic-proxy/src/pool.rs:227-279 | With no task between its two map updates, a pool's permits are for exactly the backends it tracks. |
| PoolTheorems.Exclusive | crates/pg-kinetic-proxy/src/pool.rs:189-259 | No backend is with two tasks, twice or on two queues, or with a task and on a queue. |
| PoolTheorems.LeaseEndsOnce | crates/pg-kinetic-proxy/src/pool.rs:2100-2141 | A lease is ended at most once, by return, discard or a dropped release, and is held by one task until then. |
| PoolQueue.ServedInOrder | crates/pg-kinetic-proxy/src/pool.rs:189-259 | In every run, while a backend waits on the queue no checkout takes one that came to the queue after it. |
| PoolQueue.EveryDialReserved | crates/pg-kinetic-proxy/src/pool.rs:196-212 | In every run, a task raises the active count anew between any two of its connects. |
| PoolQueue.RefusedWhenFull | crates/pg-kinetic-proxy/src/pool.rs:196-212 | In every run, a reservation is refused only if the pool was full at a moment since the task last looked. |
| PoolTheorems.GatedTaskCanProceed | crates/pg-kinetic-proxy/src/pool.rs:1548-1643 | With no eviction under way and no leaked slot, a task holding its gate permit finds an idle backend or a free slot. |
| PoolTheorems.LeaksStay | crates/pg-kinetic-proxy/src/pool.rs:1676-1712 | Slots lost to dropped connects and releases are never recovered in any continuation. |
| PoolTheorems.LeakedPoolIsDead | crates/pg-kinetic-proxy/src/pool.rs:1676-1712 | Once they amount to the maximum, the queue stays empty and no task ever holds a slot again. |
| PoolLeaks.StarvedIff | crates/pg-kinetic-proxy/src/pool.rs:1676-1712 | No continuation leases or queues a backend of the pool again if and only if dropped connects and releases have used up its slots or, on a semaphore, dropped releases all its permits. |
| PoolRuns.TimeoutStarves | crates/pg-kinetic-proxy/src/pool.rs:1676-1712 | One timed-out connect starves a pool of size one. |
| PoolRuns.LostPermitStarves | crates/pg-kinetic-proxy/src/pool.rs:2100-2106 | One dropped release starves a pool of size two on a semaphore of one permit. |
| PoolTheorems.IdleCounterOffByMiss | crates/pg-kinetic-proxy/src/pool.rs:247-259 | At rest the idle counter is right if and only if the last store to it missed nothing. |
| PoolTheorems.StoreMisses | crates/pg-kinetic-proxy/src/pool.rs:354-379 | How far off it stays after a store, for every continuation without another: by the pending increments, and for a retirement also the queue it did not see; and that it stays below zero if and only if the queue is shorter than what a retirement missed. |
| PoolTheorems.NegativeAfterStoreIff | crates/pg-kinetic-proxy/src/pool.rs:189-194 | At any moment after a store and before the next, exactly when the counter is below zero. |
| PoolTheorems.NegativeBeforeStoreIff | crates/pg-kinetic-proxy/src/pool.rs:189-194 | The same before the first store: if and only if increments still owed outnumber the backends queued, being checked out or taken for eviction. |
| PoolRuns.ReaperMakesCounterDrift | crates/pg-kinetic-proxy/src/pool.rs:354-356 | A run in which a reap leaves the counter at two with one backend idle and nothing pending. |
| PoolRuns.RetirementGoesNegative | crates/pg-kinetic-proxy/src/pool.rs:359-381 | A run in which a retirement and a return leave the counter at minus one with nothing pending. |
| PoolRuns.CheckoutGoesNegative | crates/pg-kinetic-proxy/src/pool.rs:247-259 | A run without store in which a checkout overtakes a return's increment and finds the counter at minus one. |
| Selectors.ReplicaSelector.Select | crates/pg-kinetic-proxy/src/pool.rs:727-761 | Nothing if and only if nothing is healthy; else a least-waiting replica, or the one owning the cursor's slot, with the cursor moved on. |
| Selectors.ReplicaSelector.FindOwner | crates/pg-kinetic-proxy/src/pool.rs:750-759 | The scan always finds the owner; its fall-through is unreachable. |
| Selectors.SelectionsAreFair | crates/pg-kinetic-proxy/src/pool.rs:727-761 | From any cursor, total-weight many selections over an unchanged list answer with each healthy replica its weight times, for each time it is listed, and with no other. |
| Selectors.HealthyConcat | crates/pg-kinetic-proxy/src/pool.rs:728-731 | The healthy replicas are those of the list, in its order. |
| Selectors.WindowIsFair | crates/pg-kinetic-proxy/src/pool.rs:684-696 | From any cursor, a window of total-weight selections picks each replica exactly its weight times. |
| Cancel.RunInv | crates/pg-kinetic-proxy/src/cancel.rs:48-167 | Every interleaving of issue, bind, unbind, acquire, drop and removal keeps the protocol invariant. |
| Cancel.AtMostOneLease | crates/pg-kinetic-proxy/src/cancel.rs:121-149 | At most one forwarding lease exists per binding at every step. |
| Cancel.ReturnedUnbindIsFinal | crates/pg-kinetic-proxy/src/cancel.rs:80-103 | Once an unbind has returned, no lease carries a target bound before it, then or later. |
| CancelHistory.LeaseCarriesItsBind | crates/pg-kinetic-proxy/src/cancel.rs:80-149 | In every interleaving, a lease carries exactly the target of one bind begun under the key the lease was asked for: the last one carried out, with no clear since, when it was read. |
| CancelHistory.AcquireGetsLastBind | crates/pg-kinetic-proxy/src/cancel.rs:121-149 | An acquire that won the flag gets a lease if and only if some bind has no later clear, with the last one's target. |
| CancelHistory.AcquireWinsIff | crates/pg-kinetic-proxy/src/cancel.rs:121-134 | It wins if and only if nobody else is at the binding, and else ends with nothing. |
| CancelHistory.RegisteredIff | crates/pg-kinetic-proxy/src/cancel.rs:55-103 | A key is registered if and only if it was issued and not removed since. |
| CancelSessions.CancelStaysWithItsSession | crates/pg-kinetic-proxy/src/proxy/client_io.rs:195-262 | A live cancel lease names a backend that is dead or still with the session whose key it was acquired by, through rebinds after a timeout, sessions dropped while they unbind and startup backends given back unbound. |
| Routing.SelectIsLeast | crates/pg-kinetic-proxy/src/routing.rs:521-541 | A replica is selected if and only if one is safe, and it is a least by lag then id. |
| Routing.SelectIsFirst | crates/pg-kinetic-proxy/src/routing.rs:521-541 | Among equals the first of the snapshot is selected. |
| Routing.ReplicaIff | crates/pg-kinetic-proxy/src/routing.rs:282-392 | The planner answers with a replica if and only if the mode and statement allow it and a safe one exists; it is the least. |
| Routing.ServingReplicaIff | crates/pg-kinetic-proxy/src/routing.rs:282-392 | The same on the fields alone: health, split brain, lag bound and replayed position decide, none that serves is passed over, and the nearest by lag and id is taken. |
| Routing.PolicyAnswerServes | crates/pg-kinetic-proxy/src/routing.rs:402-590 | Under any policy a replica answer meets all of these, never with an unknown position where one is asked for, and a policy that leaves the choice or insists passes over none. |
| Routing.ForcedReplicaIff | crates/pg-kinetic-proxy/src/routing.rs:416-437 | Forcing a replica gets one if and only if one serves and, for a planner that uses none, the nearest meets the configured freshness too. |
| Routing.ForcedElsewhere | crates/pg-kinetic-proxy/src/routing.rs:416-437 | Otherwise it gives the primary where the statement must have it, or a refusal. |
| Routing.ReasonIsTheRule | crates/pg-kinetic-proxy/src/routing.rs:282-351 | Each reason is given if and only if its rule decided. |
| Routing.FallbackReasons | crates/pg-kinetic-proxy/src/routing.rs:353-391 | With no serving replica, kind and reason of the answer, for every mode, fallback, hint and session. |
| Routing.PolicyDecides | crates/pg-kinetic-proxy/src/routing.rs:402-449 | A denial always rejects and a forced primary is always the primary, whatever target the caller brings. |
| Routing.OverlayIsSafe | crates/pg-kinetic-proxy/src/routing.rs:402-449 | Under any policy, a replica answer means idle, readable, no primary hint, and the least safe replica under the hint's freshness. |
| Routing.OverlayIsPlanner | crates/pg-kinetic-proxy/src/routing.rs:402-449 | No action and Allow are exactly the planner; overrides change the reason only. |
| Routing.PrimaryStatementsReachPrimary | crates/pg-kinetic-proxy/src/routing.rs:282-449 | Statements that must run on the primary do, under every planner and every policy but a denial. |
| Routing.NoReplicaKinds | crates/pg-kinetic-proxy/src/routing.rs:353-391 | With no safe replica, insisting planners reject and preferring ones answer as their fallback says. |
| Routing.ReadYourWrites | crates/pg-kinetic-proxy/src/routing.rs:543-590 | Where a known write LSN counts, the chosen replica has replayed past it. |
| Routing.SuppliedReplicaIff | crates/pg-kinetic-proxy/src/routing.rs:498-519 | A caller's own replica yields a safe answer if and only if it fails the recheck, or the statement is eligible, it is in the snapshot, and a strict hint is met. |
| Routing.SuppliedReplicaInTransaction | crates/pg-kinetic-proxy/src/routing.rs:498-519 | It need not: one handed over inside a transaction is kept. |
| Routing.PlannerMonotone | crates/pg-kinetic-proxy/src/routing.rs:327-351 | Adding or improving replicas never takes a replica answer away. |
| Routing.RelaxedLosesReplica | crates/pg-kinetic-proxy/src/routing.rs:416-437 | Under the overlay it can: the replicas for which it does, in every context of that kind. |
| Routing.OverlayMonotoneIff | crates/pg-kinetic-proxy/src/routing.rs:402-519 | The overlay is monotone if and only if it is not a forced, relaxed replica read with a required LSN under a mode without replicas. |
| Breakers.BackendBreaker.AllowRequest | crates/pg-kinetic-proxy/src/resilience.rs:68-88 | Thaws after the cooldown, then admits when closed or as the one probe. |
| Breakers.BackendBreaker.RecordSuccess | crates/pg-kinetic-proxy/src/resilience.rs:90-96 | Back to new. |
| Breakers.BackendBreaker.RecordFailure | crates/pg-kinetic-proxy/src/resilience.rs:98-116 | Reopens from half-open, counts while closed, changes nothing but the probe while open. |
| Breakers.BackendBreaker.CurrentState | crates/pg-kinetic-proxy/src/resilience.rs:118-130 | Reports the state after thawing. |
| Breakers.CountsFailures | crates/pg-kinetic-proxy/src/resilience.rs:90-116 | After any history: closed if and only if fewer failures than the threshold since the last success, so it opens exactly there. |
| Breakers.CountIsExactIff | crates/pg-kinetic-proxy/src/resilience.rs:98-116 | The count is the failures since the last success if and only if these are within the threshold. |
| Breakers.CountStops | crates/pg-kinetic-proxy/src/resilience.rs:98-116 | Two failures at threshold one count as one. |
| Breakers.RefusesUntilCooldown | crates/pg-kinetic-proxy/src/resilience.rs:68-116 | From the failure that opens it, nothing is admitted before one cooldown whatever else happens short of a success, and after it the next request is. |
| Breakers.FailedProbeRefuses | crates/pg-kinetic-proxy/src/resilience.rs:98-116 | After a failure reported while half-open, likewise from that failure. |
| Breakers.ProbesAreApart | crates/pg-kinetic-proxy/src/resilience.rs:68-116 | With a monotone clock and no success, two half-open admissions are at least a cooldown apart. |
| Breakers.ProbeHolds | crates/pg-kinetic-proxy/src/resilience.rs:68-130 | With the probe out, no requests or queries at any times admit anything or change the state. |
| Breakers.ProbeBlocksUntilReport | crates/pg-kinetic-proxy/src/pool.rs:1506-1530 | After a checkout takes the probe, the next admission needs some lease to report, however long a failed checkout stays silent. |
| Lsn.ParseHexU32 | crates/pg-kinetic-core/src/cluster/lsn.rs:178-203 | The loop reads one to eight digits, and its checked arithmetic never overflows. |
| Lsn.ParseIff | crates/pg-kinetic-core/src/cluster/lsn.rs:53-76 | A text parses to a position if and only if it is two halves of one to eight digits with those values. |
| Lsn.ParsePrint | crates/pg-kinetic-core/src/cluster/lsn.rs:47-76 | Parsing inverts printing for every u64. |
| Lsn.PrintIsCanonical | crates/pg-kinetic-core/src/cluster/lsn.rs:48-52 | A position prints as its upper and lower half in upper-case digits without leading zeros. |
| Lsn.OrderIsLexicographic | crates/pg-kinetic-core/src/cluster/lsn.rs:6-33 | Order is the order of (segment, offset), which determine the position. |
| Fingerprints.Fingerprint | crates/pg-kinetic-core/src/fingerprint.rs:6-44 | The one pass that stops early computes the whole normal form cut to 256 bytes, and panics exactly when that cut splits a character. |
| Fingerprints.AsciiIsBounded | crates/pg-kinetic-core/src/fingerprint.rs:38-41 | An ASCII statement always has a fingerprint, of at most 256 bytes. |
| Fingerprints.StraddlingSymbolPanics | crates/pg-kinetic-core/src/fingerprint.rs:38-41 | A two-byte symbol across the limit has none. |
| Fingerprints.CaseAndCommentsIgnored | crates/pg-kinetic-core/src/fingerprint.rs:13-22 | Statements alike but for comments and letter case have one normal form. |
| Fingerprints.NormalIsJoined | crates/pg-kinetic-core/src/fingerprint.rs:6-55 | The normal form is the statement's texts, literals as marks and lists after `in` down to one value, set apart by the neighbours. |
| Fingerprints.LowerIff | crates/pg-kinetic-core/src/fingerprint.rs:23 | Words come out alike if and only if they differ in letter case only, and come out without capitals. |
| Fingerprints.InListCollapses | crates/pg-kinetic-core/src/fingerprint.rs:15-36 | Where lists fold, the number and shape of further values leave the whole normal form alone. |
| Fingerprints.InListIgnoredIff | crates/pg-kinetic-core/src/fingerprint.rs:24-36 | Lists fold at a point if and only if the output there ends in a space and `in`, or such a list is open. |
| Fingerprints.LeadingInIsNotCollapsed | crates/pg-kinetic-core/src/fingerprint.rs:24-27 | A statement that begins with `in` does not fold. |
| Startup.ParseParameterList | crates/pg-kinetic-wire/src/startup.rs:67-98 | The loop reads the parameters as specified, with the same errors in the same order. |
| Startup.ParametersIff | crates/pg-kinetic-wire/src/startup.rs:67-98 | Bytes parse to a list if and only if they end in NUL and spell it out, keys nonempty and strings NUL-free UTF-8. |
| Startup.ParseInvertsStartup | crates/pg-kinetic-proxy/src/pool/backend_query.rs:287-303 | Parsing inverts the encoder if and only if keys are nonempty and strings NUL-free UTF-8. |
| Startup.ParseInvertsCancel | crates/pg-kinetic-proxy/src/cancel.rs:182-189 | Every cancel request parses back to its id and key. |
| Startup.CancelIff | crates/pg-kinetic-wire/src/startup.rs:24-65 | A packet is a cancel request if and only if it is the one the proxy writes for that process and secret. |
| Startup.EncryptionRequestIff | crates/pg-kinetic-wire/src/startup.rs:24-65 | A whole packet asks for TLS or GSS encryption if and only if it has that code. |
| Startup.VersionHalves | crates/pg-kinetic-wire/src/startup.rs:53-55 | The major version is the upper half of the protocol code and the minor one the lower. |
| Startup.VersionDetermined | crates/pg-kinetic-wire/src/startup.rs:53-55 | Major and minor version determine the protocol code. |
| SqlStates.ParseCodeIff | crates/pg-kinetic-wire/src/sqlstate.rs:17-48 | A code parses to a state if and only if it is that state's code. |
| BackendMessages.FindSqlState | crates/pg-kinetic-wire/src/backend.rs:108-133 | The loop reads the first SQLSTATE field of an error and nothing of other frames. |
| BackendMessages.SqlStateOfFields | crates/pg-kinetic-wire/src/backend.rs:108-133 | For any well-formed fields the result is what the first SQLSTATE field says, whatever follows it. |
| BackendMessages.ErrorReadsBack | crates/pg-kinetic-wire/src/backend.rs:27-44 | An error built with any NUL-free code and any message, in a stream, reads back as the enumeration knows that code. |
| BackendMessages.ErrorLayout | crates/pg-kinetic-wire/src/backend.rs:27-44 | On the wire it is severity, code and message, in that order. |
| BackendMessages.ErrorReadsBackIff | crates/pg-kinetic-wire/src/backend.rs:27-44 | So it reads back as a state if and only if it was built with that state's code. |
| BackendMessages.AuthFailureNotReadBack | crates/pg-kinetic-proxy/src/auth.rs:790-800 | The authentication failure the proxy builds reads back as nothing. |
| BackendMessages.ParameterStatusIff | crates/pg-kinetic-wire/src/backend.rs:72-86 | A payload parses to a status if and only if it spells it out, with a name and NUL-free UTF-8. |
| BackendMessages.StatusReadsBackIff | crates/pg-kinetic-wire/src/backend.rs:47-59 | Encoding, framing and parsing a status gives it back if and only if it is well formed. |
| ScramText.UnescapeText | crates/pg-kinetic-proxy/src/auth.rs:985-1008 | The loop unescapes as specified and fails on every other escape. |
| ScramText.UnescapeEscape | crates/pg-kinetic-proxy/src/auth.rs:329-331 | Unescaping inverts escaping for every name, and an escaped name has no comma. |
| ScramText.EscapeUnescape | crates/pg-kinetic-proxy/src/auth.rs:985-1008 | A comma-free text that unescapes is the escape of the result. |
| ScramText.ReadClientFirst | crates/pg-kinetic-proxy/src/auth.rs:874-897 | The loop takes the last name and nonce, and fails on any item without `=` or any bad escape. |
| ScramText.ReadClientFinal | crates/pg-kinetic-proxy/src/auth.rs:899-921 | The loop takes the last binding, nonce and proof, and fails on any item without `=`. |
| ScramText.ClientFirstIff | crates/pg-kinetic-proxy/src/auth.rs:874-897 | A message is a client's first if and only if it is `n,,` and well-formed items, with the last name and nonce. |
| ScramText.ClientFinalIff | crates/pg-kinetic-proxy/src/auth.rs:899-921 | And a client's last if and only if every item has an equals sign, with the last binding, nonce and proof. |
| ScramText.LastValueIff | crates/pg-kinetic-proxy/src/auth.rs:899-921 | The value taken is that of an item of the key with no other after it. |
| ScramText.FirstValueIff | crates/pg-kinetic-proxy/src/auth.rs:322-327 | The client half takes that of the item with no other before it. |
| Scram.XorArrays | crates/pg-kinetic-proxy/src/auth.rs:333-339 | The loop computes the bytewise exclusive or. |
| Scram.XorCancels | crates/pg-kinetic-proxy/src/auth.rs:957-963 | A second exclusive or with the same bytes undoes the first. |
| ScramAgreement.ClientFirstParses | crates/pg-kinetic-proxy/src/auth.rs:874-897 | The server reads back the name and nonce the client wrote, whatever the name. |
| ScramAgreement.ServerFirstParses | crates/pg-kinetic-proxy/src/auth.rs:322-327 | The client reads back the nonce, salt and count the server wrote. |
| ScramAgreement.ClientFinalParses | crates/pg-kinetic-proxy/src/auth.rs:899-921 | The server reads back the binding, nonce and proof the client wrote. |
| ScramAgreement.InitialParses | crates/pg-kinetic-proxy/src/auth.rs:859-872 | The server reads back the mechanism and message of the initial response. |
| ScramAgreement.InitialIff | crates/pg-kinetic-proxy/src/auth.rs:859-872 | A payload is an initial response if and only if it starts with mechanism, NUL, length and a message of that length. |
| ScramAgreement.ProofVerifies | crates/pg-kinetic-proxy/src/auth.rs:923-945 | The proof made from the verifier's password verifies over any auth message. |
| ScramAgreement.AcceptedProofHasKey | crates/pg-kinetic-proxy/src/auth.rs:923-945 | An accepted final message carries a key whose hash is stored, over this very auth message, binding and nonce. |
| ScramAgreement.Agreement | crates/pg-kinetic-proxy/src/auth.rs:606-661 | Run against each other, both halves accept, for every name, password, salt and comma-free nonces. |
| ScramSessions.BackendAuthSession.Respond | crates/pg-kinetic-proxy/src/auth.rs:167-193 | Each request changes the session and answers as specified. |
| ScramSessions.BackendAuthSession.ScramInitialResponse | crates/pg-kinetic-proxy/src/auth.rs:217-244 | Answers only an offer of the mechanism, and remembers the message it sends. |
| ScramSessions.BackendAuthSession.ScramFinalResponse | crates/pg-kinetic-proxy/src/auth.rs:246-288 | Answers only an extension of its nonce with a positive count, and remembers the signature it will expect. |
| ScramSessions.BackendAuthSession.VerifyScramServerFinal | crates/pg-kinetic-proxy/src/auth.rs:290-311 | Consumes the expected signature unless the server reports an error, and accepts only a match. |
| ScramSessions.ServerFinalNeedsExchange | crates/pg-kinetic-proxy/src/auth.rs:167-311 | In every sequence of requests, an accepted code 12 has its own earlier accepted code 11, after an accepted code 10. |
| ScramSessions.CleartextNeedsTls | crates/pg-kinetic-proxy/src/auth.rs:167-193 | In every sequence of requests, the cleartext password is sent if and only if it is asked for over TLS, which changes nothing. |
| ScramSessions.OtherCodesFail | crates/pg-kinetic-proxy/src/auth.rs:167-193 | Requests too short or of any other code fail and change nothing. |
| ScramSessions.OfferAnsweredIff | crates/pg-kinetic-proxy/src/auth.rs:217-244 | A code 10 is answered if and only if it offers the mechanism, set off by NULs. |
| ScramSessions.ContinueAnsweredIff | crates/pg-kinetic-proxy/src/auth.rs:246-288 | A code 11 is answered if and only if a first message was sent and the reply extends its nonce, has a salt and asks for an iteration. |
| ScramSessions.FinalAnsweredIff | crates/pg-kinetic-proxy/src/auth.rs:290-311 | A code 12 is answered if and only if it is no error report and carries the expected signature, which any but an error report uses up. |
| ScramSessions.ProofIsOverTheWire | crates/pg-kinetic-proxy/src/auth.rs:246-288 | In every sequence, an answered code 11 proves the key over the first message, the reply and the final message up to its proof, as they went over the wire. |
| ScramSessions.ServerSignsTheWire | crates/pg-kinetic-proxy/src/auth.rs:290-311 | And an answered code 12 carries the server's signature of the same. |
| ScramSessions.ProofGivesKey | crates/pg-kinetic-proxy/src/auth.rs:246-288 | The proof is the client's key hidden by its signature. |
| Md5.HexLowerText | crates/pg-kinetic-proxy/src/auth.rs:341-349 | The loop writes the digits as specified. |
| Md5.HexReads | crates/pg-kinetic-proxy/src/auth.rs:341-349 | Two lower-case digits a byte, high half first. |
| Md5.AcceptsIff | crates/pg-kinetic-proxy/src/auth.rs:838-857 | The server half accepts `md5` and the expected digits, with or without a NUL, and nothing else. |
| Md5.AnswerAccepted | crates/pg-kinetic-proxy/src/auth.rs:195-215 | It accepts the client half's answer if and only if the digests agree, so always for the stored password. |

## Left out

- Async runtimes, sockets, TLS, metrics, snapshots for observation, health probes and admin views: plumbing around the modelled state.
- Liveness of `unbind` and of the waiting checkout: they rest on notification and lock scheduling and do not hold unconditionally.
- The SQL tokenizer and classifier, the policy evaluator, sharding and the backpressure gate: their results are inputs, the gate a counter bounded by its first argument.
- SQL-level PREPARE and DEALLOCATE and the unnamed statement: they bypass the catalog by design.
- The order in which `snapshot` lists statements: sorting for display.
- Machine widths of counters (statement keys, session ids, event counts, the selector's cursor): unbounded here, so wrap-around after 2^64 steps is not modelled; where `idle_backends` wraps below zero it is a negative number here.
- Cryptographic strength: hash, HMAC, PBKDF2, MD5 and base64 are parameters; error texts are not modelled.
- `encode_backend_key_data` and `ready_status`: settled by reading them.
- `requires_startup` on the wait path of a checkout: always false there, as the code says.
- Selectors.WindowIsFair: does not model the wrap of the machine cursor, after which one window is uneven.
- PoolStores.BackendStore.ReserveBackendSlot: one call with no other running; its interleavings are in PoolProtocol.
- PoolTheorems.GatedTaskCanProceed: a free slot of a pool on the semaphore may still lack a permit, which other pools hold.
- Breakers.ProbesAreApart: for a fixed configuration; `configure` may shorten the cooldown in between.
