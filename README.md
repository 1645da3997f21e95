# Batch synchronizer of a data-availability committee node

A committee node follows the rollup contract's "sequence batches" events. Each
event names a block and a list of batches. The content key of a batch is its
transactions hash. For every key the node does not hold yet, the synchronizer
asks the other committee members for the payload. It then stores all the fetched
payloads, together with the event's block as the new progress marker, in one
database transaction.

This project models that core (`synchronizer/batches.go`) and proves its
properties in Dafny:

- `types.dfy` (module `Types`): bytes, `uint64` block numbers, 32-byte hashes,
  20-byte addresses, committee members, payloads and errors.
- `member_client.dfy` (module `MemberClient`): the point query to one member.
  The members' endpoints are an oracle `Network` from (URL, key) to a reply.
- `committee.dfy` (module `Committee`): pure definitions of the committee cache
  and of the order in which `resolve` visits it, with lemmas about them.
- `events.dfy` (module `Events`): the resume block, and the keys an event
  references. ABI decoding is an oracle `Decoder`.
- `storage.dfy` (module `Storage`): the database, as a class. It holds the
  durable payload table and progress marker, plus the transaction open on them.
  Every call takes the error it should fail with (`Faults`).
- `synchronizer.dfy` (module `Synchronizer`): class `BatchSynchronizer`. Its
  `committee` field is updated in place by `ResolveCommittee` and `Resolve`.
  `HandleSequenceBatches`, `ResolveAndStore` and `Store` are the imperative steps
  of handling one event.

Quirks of the code are modelled as written:

- The working list `resolve` builds (batches.go:219-221) is `make` with length
  n followed by n appends. It therefore holds n zero-valued members, then the n
  cache entries in the map's iteration order (`IsSnapshot`).
- A zero-valued member has no URL, so its query fails. Evicting its (zero)
  address changes nothing unless the zero address really is a member. When it
  is not, the scan evicts exactly the real members that failed before the one
  that answers (`ZeroMemberFails`, `ZeroSlotsEvictNothing`).
- `rand.NewSource` at :224 discards its result. The permutation is simply any
  permutation: `Resolve` picks it with `:|` and returns it as a ghost output so
  that its contract can name it.

A ghost field `queried` of the synchronizer logs every query made to a member.
It lets the contracts say which keys were fetched: only missing ones.

`ResolveAll`, `ResolveAndStore` and `HandleSequenceBatches` also return, as
ghost outputs, the trace of the `resolve` calls they made (`ResolvedInTurn`).
Call i is for the i-th key. It starts from the cache and query log left by
call i - 1, and its outcome is exactly what `Resolve` promises for one call
(`ResolveOutcome`). The payloads stored are the results of those calls, and an
error is the result of the first call that failed, or the store's error.

## Model

| member | source | states |
|---|---|---|
| Events.StartBlock | synchronizer/batches.go:128-140 | the resume block is one below the last processed block when that is above zero, and the same block otherwise; the read error is passed on unchanged |
| Events.ResumeReplaysFrom | synchronizer/batches.go:136-138 | resuming never skips a block at or after the last processed one |
| Events.TransactionHashes | synchronizer/batches.go:279-283 | one key per batch, in batch order, each the batch's transactions hash |
| Events.ParseEvent | synchronizer/batches.go:256-283 | a decoding error is returned as it is; otherwise the result is the log's block number and the transactions hash of each decoded batch, in order |
| MemberClient.ResolveWithMember | synchronizer/batches.go:238-254 | a member's answer succeeds iff it read bytes and the call reported no error; empty bytes become a not-found error; a success carries the asked key and exactly the bytes read |
| MemberClient.ZeroMemberFails | synchronizer/batches.go:238-244 | the zero-valued member never resolves anything, whatever the network does |
| Committee.CommitteeOf | synchronizer/batches.go:60-71 | the rebuilt cache never holds `self`, holds every listed member whose address is not `self`, and keys each entry by its own address |
| Committee.CommitteeOfLastWins | synchronizer/batches.go:65-69 | when an address is listed twice, the cache keeps the later entry |
| Committee.Arrange | synchronizer/batches.go:225-226 | the scan visits slot `perm[i]` of the working list at step `i` |
| Committee.FirstSuccess | synchronizer/batches.go:225-233 | the position of the first member in scan order that answers: every member before it fails, and it succeeds (or none does) |
| Committee.Asked | synchronizer/batches.go:225-233 | the members asked are a prefix of the scan order: through the first that answers, or all of them |
| Committee.CommitteeOfExtend | synchronizer/batches.go:65-69 | one more listed member replaces the cache entry for its address, unless it is `self` |
| Committee.ScanFrom | synchronizer/batches.go:225-235 | the scan as a walk over the scan order, one member at a time: the first member that answers ends it with its reply, and each one that fails is evicted before the next is asked (a definition; what it does is stated by the ScanFrom lemmas) |
| Committee.ScanFromShape | synchronizer/batches.go:225-235 | the walk only evicts cache entries and never adds or changes one; it asks the members in scan order, at least the first; a reply it ends with on success is a non-empty payload under the key |
| Committee.ScanFromReply | synchronizer/batches.go:225-235 | the walk over the scan order (ScanFrom, one member at a time) ends with the reply of the first member that answers, or not-found when none does |
| Committee.ScanFromCache | synchronizer/batches.go:225-231 | the walk evicts exactly the addresses of the members asked before the one that answers |
| Committee.ScanFromQueries | synchronizer/batches.go:225-227 | the walk queries the members in order, through the first that answers, and no others |
| Committee.VisitsEveryMember | synchronizer/batches.go:218-225 | whatever the map order and the permutation, the scan visits every entry of the cache |
| Committee.SlotsAreZeroOrMembers | synchronizer/batches.go:219-222 | every slot the scan visits is the zero-valued member or an entry of the cache |
| Committee.ServedKeyIsResolved | synchronizer/batches.go:225-233 | if some cache entry can serve the key, the scan finds an answering member |
| Committee.ExhaustedScanEmptiesCommittee | synchronizer/batches.go:225-235 | when no member answers, the walk leaves the cache empty: every cached address was asked and evicted |
| Committee.AnswerComesFromCommittee | synchronizer/batches.go:225-233 | the member that answers is a real cache entry, never a zero-valued slot |
| Committee.ZeroSlotsEvictNothing | synchronizer/batches.go:219-231 | when the zero address is not a member, the zero-valued slots evict nothing: the scan removes exactly the real members asked before the one that answers, all of them cache entries, and leaves every other entry unchanged |
| Storage.InsertAll | synchronizer/batches.go:191 | writing the payloads adds exactly their keys, keeps every stored payload, and each new entry is one of the written payloads |
| Storage.InsertAllIdempotent | synchronizer/batches.go:191 | writing the same payloads twice has the effect of writing them once |
| Storage.InsertAllStored | synchronizer/batches.go:191 | writing payloads whose keys are all stored changes nothing |
| Storage.FirstFault | synchronizer/batches.go:188-202 | store fails iff some step fails, with the error of the first step that fails |
| Storage.Database.Exists | synchronizer/batches.go:163-167 | a key counts as present exactly when the payload table holds it (a definition; the `db` package's query is assumed to behave so) |
| Storage.Database.BeginStateTransaction | synchronizer/batches.go:188 | on success a transaction opens on the durable state; on failure none is open |
| Storage.Database.StoreOffChainData | synchronizer/batches.go:191 | on success the transaction's payload table has the payloads written into it |
| Storage.Database.StoreLastProcessedBlock | synchronizer/batches.go:195 | on success the transaction's progress marker is the block |
| Storage.Database.Commit | synchronizer/batches.go:199 | on success the transaction's state becomes durable; on failure the durable state is unchanged; either way no transaction is open |
| Storage.Database.Rollback | synchronizer/batches.go:205-209 | the open transaction is dropped |
| Synchronizer.MissingKeys | synchronizer/batches.go:153-159 | each key occurs in the result as often as in the input if it is not stored, and not at all if it is |
| Synchronizer.MissingKeysAppend | synchronizer/batches.go:155-158 | the filter works key by key, so the kept keys stay in their original order |
| Synchronizer.MissingKeysMembers | synchronizer/batches.go:155-158 | a key is passed on iff it is in the event and not stored |
| Synchronizer.ScanOutcomeFacts | synchronizer/batches.go:225-234 | the scan only evicts entries and never adds or changes one; it only appends queries, all for its own key; a success is a non-empty payload under that key |
| Synchronizer.WalkStep | synchronizer/batches.go:225-233 | asking the next member of the walk logs the query, and either ends the walk with that member's reply or continues it without that member's address |
| Synchronizer.ResolveOutcomeFacts | synchronizer/batches.go:211-236 | whichever path resolve takes, a success is a non-empty payload under its key, and the query log is only extended, with queries for that key |
| Synchronizer.ResolvedInTurnExtend | synchronizer/batches.go:171-176 | a call of resolve for the next key, starting where the previous one left off, extends the trace of calls |
| Synchronizer.ResolvedInTurnSteps | synchronizer/batches.go:171-176 | in a trace of calls, every call that succeeds returns a non-empty payload for its own key, and every call only appends queries for its own key |
| Synchronizer.LogAppendsKeysThrough | synchronizer/batches.go:171-176 | after k calls the query log extends the one before the first call, and every query added asks for one of the first k keys |
| Synchronizer.StoredCoversKeys | synchronizer/batches.go:153-160 | storing one payload per missing key leaves every key of the event stored and nothing stored outside the event |
| Synchronizer.BatchSynchronizer.constructor | synchronizer/batches.go:44-48 | a synchronizer starts with an empty cache and no queries made |
| Synchronizer.BatchSynchronizer.New | synchronizer/batches.go:39-54 | construction fails with the chain's error, or returns a synchronizer whose cache is the chain's committee without `self` |
| Synchronizer.BatchSynchronizer.ResolveCommittee | synchronizer/batches.go:56-72 | a failed chain query leaves the cache as it was and returns the error; otherwise the cache becomes the listed members other than `self` |
| Synchronizer.BatchSynchronizer.Snapshot | synchronizer/batches.go:218-222 | the working list is as many zero-valued members as there are cache entries, followed by each entry once |
| Synchronizer.BatchSynchronizer.Scan | synchronizer/batches.go:223-235 | the loop's reply, cache and queries are those of the walk ScanFrom over the working list in permutation order, so (by the ScanFrom lemmas) the first answer is returned and exactly the members that failed before it are evicted |
| Synchronizer.BatchSynchronizer.Resolve | synchronizer/batches.go:211-236 | an empty cache is refreshed first and a failed refresh is returned with nothing changed; otherwise the cache is scanned in some permutation order, and the scan's outcome above holds |
| Synchronizer.BatchSynchronizer.CollectMissing | synchronizer/batches.go:153-159 | the keys not stored in the database, in their order |
| Synchronizer.BatchSynchronizer.Store | synchronizer/batches.go:181-203 | the result is the first step's error; on success the payloads are written and the block is the marker; on any failure the durable state is unchanged and no transaction is left open |
| Synchronizer.BatchSynchronizer.ResolveNext | synchronizer/batches.go:172-176 | one turn of the loop: resolve the next key from the current cache and log, and the trace of calls grows by that call |
| Synchronizer.BatchSynchronizer.ResolveAll | synchronizer/batches.go:170-177 | resolve is called for the keys in turn, each call from the cache and log the previous one left; the payloads returned are the results of the calls that succeeded, one per key in key order; on failure no further key is tried and the error is the failing call's own error; only those keys are queried |
| Synchronizer.BatchSynchronizer.ResolveAndStore | synchronizer/batches.go:169-179 | the calls of resolve as above; a failed call ends the method with that call's error and nothing stored; when every call succeeds the result is the store's, writing exactly those payloads with the block; it succeeds iff every call succeeds and no store step fails |
| Synchronizer.BatchSynchronizer.HandleSequenceBatches | synchronizer/batches.go:147-161 | a parse error returns before any query; otherwise the keys passed on are exactly the missing ones, and they are resolved and stored as above; the call succeeds iff parsing, every resolution and every store step succeed; then every key of the event is stored, stored payloads are kept, nothing outside the event is added, and the marker is the event's block; on any error the database is unchanged; only keys of the event not stored before are queried |

## Left out

- The `Start` loop (batches.go:75-126) is left out. It is channel selection, subscriptions, timeouts and retry sleeps. What it does with `getStartBlock` is captured by `Events.StartBlock` and `Events.ResumeReplaysFrom`.
- `Stop` (batches.go:143-145) is left out. It only closes a channel.
- The mutex of `resolveCommittee` is left out. The model is single-threaded.
- The context timeouts and logging are left out.
- The watcher that `NewBatchSynchronizer` creates from its configuration is left out. `New` starts at the committee lookup.
- The ABI and JSON decoding of `parseEvent` (batches.go:257-277) is the oracle `Decoder`. Every failure in it is one `Failure` of the oracle.
- Events.ParseEvent: requires at least 4 bytes of event data. The source slices `Raw.Data[:4]` and panics on shorter data, so that case is not modelled.
- The member client, the chain and the database driver are not modelled:
  - The member client is the oracle `Network`. A member without a URL fails before the oracle is asked.
  - The chain's committee is an oracle. `New` and `ResolveCommittee` take one answer. While one event is handled, the refresh inside the resolution of the i-th missing key gets the answer `chain(i)` (`Chain`).
  - The network is one function for a whole event: a member asked the same key twice in one event answers the same way both times.
  - The database driver is the `Database` class with injected faults.
- The `db` package is not part of this model. Two of its behaviours are assumed:
  - Storing payloads keeps a row whose key is already present (`Storage.InsertAll`).
  - `Exists` is plain membership in the payload table.
- Storage.Database.StoreOffChainData: after a failed write the open transaction's contents are not specified. The transaction is always rolled back afterwards.
- `rand.Perm` and Go's map iteration order are nondeterministic choices. The proofs hold for every permutation and every order, so no distribution is modelled.
- The error codes of the RPC errors (`NotFoundErrorCode`) and their message texts are not modelled; the model keeps only which error it is (`NoDataForKey`, `DataNotFound`).
