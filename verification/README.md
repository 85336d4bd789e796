# Verified model of the MisakaLLM bridge and database layer

A Dafny 4.11 model of the two parts of the repository that carry the most state: the cached RocksDB access layer
(`database/src`) and the share path of the Stratum bridge (`bridge/src`). Check it with `dafny verify dfyconfig.toml`.

| file | models |
|---|---|
| `Util.dfy`, `Hex.dfy` | shared vocabulary; hexadecimal text and its parser |
| `Bytes.dfy` | byte order, prefix ranges, `DbKey` |
| `Cache.dfy` | the counted and size-tracked cache with random eviction |
| `Store.dfy`, `Steps.dfy` | cache, DB, open batches and concurrent readers as a state machine |
| `Calls.dfy`, `Overlaps.dfy` | the same with write calls taken apart into their halves: kept apart on each key, and overlapping in any way |
| `Access.dfy`, `Item.dfy` | `CachedDbAccess` and `CachedDbItem` as objects over a DB and write batches |
| `Pages.dfy` | `iterator` and paging with `seek_iterator` |
| `FifoGuard.dfy` | the expiring queue-and-map table that both submit guards share |
| `SubmitGuard.dfy` | `DuplicateSubmitGuard` under every interleaving of submits |
| `BlockGuard.dfy`, `BlockRaces.dfy` | `BlockSubmitGuard`, the mark / RPC / release protocol of `submit_block`, and its races |
| `JobRing.dfy`, `WalkBack.dfy` | the 300-slot job ring and the search for the job a share belongs to |
| `Nonce.dfy` | extranonce allocation and nonce assembly |
| `Encoding.dfy` | job encodings |
| `VarDiff.dfy`, `VarDiffClamped.dfy`, `Target.dfy` | the difficulty controller, its clamped runs, and the pool target |
| `Ledger.dfy`, `Workers.dfy` | worker and overall share counters under pruning, and whose shares they count |
| `Shares.dfy` | a share from the duplicate guard to the counters |
| `Framing.dfy` | line framing of the Stratum listener |
| `Connections.dfy` | global and per-address connection accounting |
| `CpuMiner.dfy` | work publication and the nonce walk of the internal miner |
| `Numbers.dfy`, `Prime.dfy` | divisibility, orders modulo a number, and the primality of the walk's spacing |

Code that updates state in place is a class or a loop proved against a specification function; concurrency is a state
machine whose steps are the source's critical sections, and the theorems quantify over every sequence of steps. Time,
the node's replies, PoW values, eviction choices and the square root are parameters.

## Properties that do not hold as promised

Each of these has a lemma with the exact condition, and where that names no failing case, one with a case.

- The cache does not agree with the DB after every run of calls: `Store.MissBeforeCommit`, `Store.WriteDuringRead` and
  `Store.DirectWriteOverStaged` break it, `Store.RunExactly` says exactly which runs keep it, `Store.ReadExact`,
  `Store.WriteBetweenExact` and `Store.WriteExact` which single calls. Calls that overlap on one key break it too
  (`Calls.DeleteOverWrite`, `Calls.FillBetweenHalves`); `Overlaps.OverlapsExactly` says exactly which interleavings of
  their halves keep it, and calls that keep apart are whole calls (`Calls.RunSimulated`).
  `Item.ReadResurrectsRemoved` and `Item.StepExact` do the same for single items.
- `skip_first` drops the first row found, whatever it is: `Pages.SkipLosesRow`, `Pages.SkipExact`.
- Neither guard forgets entries as soon as they expire: `SubmitGuard.ExpiredEntryIsStillFound`,
  `BlockRaces.ExpiredMarkMayStillBlock`. `FifoGuard.SurvivalExactly` says which keys survive a prune of any queue.
- RPCs within the TTL and unexpired marks that fit do not keep two tasks from submitting one block at once:
  `BlockRaces.ShieldedMarkBreaksExclusion`. `BlockGuard.ExclusionExactly` has the exact condition, for runs of any speed.
  `BlockGuard.RunExactly` has the one for exclusion, ownership of marks and settled marks together, and
  `BlockGuard.RoomyIsUncrowded` a simple one that suffices for all three.
- A duplicate reply is meant to keep the mark of a block, but the test for it reads the text of the added error context
  (`bridge/src/kaspaapi.rs:421-431`), which names no duplicate: `BlockGuard.DuplicateMayRetry`. The mark outlives the reply
  exactly when the reply is a success: `BlockGuard.OnlySuccessKeeps`, `BlockGuard.RetryExactly`.
- Splitting a stream into different reads can change what is dispatched, because the first read alone is searched for the
  HTTP/2 preface: `Framing.SplitMatters`, `Framing.SplitsAgree`.
- A per-address cap that is a nonzero multiple of 2^32 leaves entries at zero: `Connections.NoZeroExactly`.
- With the power-of-two clamp the controller can go on for ever: `VarDiff.ClampedCycle`, `VarDiffClamped.SettlesExactly`.
- The pool target panics for positive difficulties below 10^-18: `Target.TinyDifficultyPanics`, `Target.TargetDefined`.
- Nonces longer than twelve digits ignore the extranonce: `Nonce.LongNonce`, `Nonce.ExtranonceIgnored`.

Where comments and code disagree the model follows the code: a short nonce is padded on the left
(`bridge/src/share_handler.rs:447` says right), and a job lookup does compare the stored id
(`bridge/src/share_handler.rs:399` says it does not).

## Model

| member | source | states |
|---|---|---|
| `Bytes.RangeIsPrefix` | database/src/access.rs:204-213 | a key lies in the range of a prefix if and only if it starts with the prefix |
| `Bytes.SuccessorIsLeast` | database/src/access.rs:204-213 | the upper end of a prefix range is the least byte string above every extension of the prefix |
| `Bytes.SuccessorExists` | database/src/access.rs:204-213 | the upper end that `delete_all` unwraps is missing exactly for prefixes of 0xff bytes only |
| `Bytes.CommonKeyNests` | database/src/key.rs:12-18 | two store prefixes of one key are nested, so stores with prefixes that are apart share no key |
| `Bytes.DbKey.constructor` | database/src/key.rs:12-18 | the path is prefix then key, and the prefix length is that of the prefix |
| `Bytes.DbKey.PrefixOnly` | database/src/key.rs:30-33 | a key that is all prefix |
| `Bytes.DbKey.AddBucket` | database/src/key.rs:35-42 | appends the bucket and counts it into the prefix |
| `Bytes.DbKey.AddKey` | database/src/key.rs:43-50 | appends the key and counts it into the prefix, as the code does |
| `Cache.Cache.constructor` | database/src/cache.rs:32-42 | an empty valid cache of the given policy and size measure |
| `Cache.Cache.KeepsWithin` | database/src/cache.rs:8-44 | a valid cache is within the bound of the policy it was made with: empty, at most so many items, or a total size passed only with few items |
| `Cache.Cache.TrackedEvict` | database/src/cache.rs:61-68 | for every choice of victims, eviction ends within the bound or at the minimum item count, the tracked size is the sum held, nothing is evicted from a cache that fits and the last victim was needed |
| `Cache.Cache.MakeRoom` | database/src/cache.rs:78-83 | a full counted cache loses exactly one arbitrary item, any other none |
| `Cache.Cache.InsertTracked` | database/src/cache.rs:70-77 | the size bookkeeping of an insert, new or replacing, stays exact and never underflows |
| `Cache.Cache.InsertCounted` | database/src/cache.rs:78-83 | a counted cache holds the inserted item and never more than its maximum |
| `Cache.Cache.Insert` | database/src/cache.rs:156-163 | insertion under each policy, within the bound of the policy afterwards; a cache of size zero stays empty, a counted one holds the item |
| `Cache.Cache.InsertMany` | database/src/cache.rs:164-173 | what is held is part of what inserting everything would give, with the last value of each key, within the bound of the policy; a counted cache holds the last entry |
| `Cache.Cache.UpdateIfEntryExists` | database/src/cache.rs:86-100 | updates a held item only, re-trims a tracked cache, keeps the sum exact and the bound of the policy |
| `Cache.Cache.Remove` | database/src/cache.rs:102-112 | removes exactly that key and returns its value |
| `Cache.Cache.RemoveAll` | database/src/cache.rs:201-210 | empties the cache and resets the tracked size |
| `Store.ApplyAt` | database/src/writer.rs:71-92 | a committed batch leaves the effect of its last operation on every key it touches and changes no other |
| `Store.PerformShows` | database/src/writer.rs:36-92 | what an operation does to what each key shows, committed or staged: nothing to untouched keys, nothing to a staged key when it goes straight to the DB, else its value as far as the other batches agree |
| `Store.CommitShows` | database/src/writer.rs:71-92 | a commit changes nothing that any key shows, whatever other batches stage |
| `Store.CommitSpends` | database/src/writer.rs:61-92 | a commit puts into every touched row what the batch leaves there, once: the batch stages nothing any more and committing it again does nothing |
| `Store.StepExact` | database/src/access.rs:44-213 | for every single step from a coherent state, the exact condition under which the cache stays coherent: only cached writes and fills have one |
| `Store.RowHistory` | database/src/access.rs:134-213 | a committed row is what the last call since any earlier moment left there |
| `Store.RunExactly` | database/src/access.rs:44-213 | over whole runs of reads, writes, deletes, range deletes, commits and evictions, the cache is coherent all the way if and only if every cached write agreed with the other staging batches and every fill with what happened to its key since the fetch |
| `Store.DisciplinedIsSound` | database/src/access.rs:44-213 | a simple discipline that suffices: fetch unstaged keys only, do not write between the halves of a read, do not put a staged key elsewhere |
| `Store.CacheIsTransparent` | database/src/access.rs:44-68 | after every sound run `read` and `has` of an unstaged key answer as the plain map, and a cached staged key holds what every staging batch will leave |
| `Store.QuiescentCacheIsSubmap` | database/src/access.rs:134-213 | with every batch committed the cache is part of the DB |
| `Store.FillExact` | database/src/access.rs:51-68 | the fill step alone: coherent if and only if the staging batches, or else the row, still have the fetched value |
| `Store.WriteExact` | database/src/access.rs:134-143 | a cached write is coherent if and only if every other batch staging the key leaves the same value |
| `Store.ReadExact` | database/src/access.rs:51-68 | a whole missing read keeps the cache coherent if and only if every batch that stages the key leaves the committed value |
| `Store.WriteBetweenExact` | database/src/access.rs:51-68 | the same for a read with a write of its key between fetch and fill |
| `Store.RemoveBetweenExact` | database/src/access.rs:51-68 | the same with a deletion in between |
| `Store.MissBeforeCommit` | database/src/access.rs:51-68 | a miss on a staged key leaves the old value in the cache after the commit |
| `Store.WriteDuringRead` | database/src/access.rs:51-68 | a write between the two halves of a missing read is lost from the cache |
| `Store.DirectWriteOverStaged` | database/src/access.rs:134-143 | a direct write of a staged key is cached but overwritten by the commit |
| `Store.ClearEmptiesOwnStore` | database/src/access.rs:204-213 | `delete_all` removes precisely the rows that start with the store prefix |
| `Store.NeighbourIsForeign` | database/src/access.rs:204-213 | no operation of a store with a prefix that is apart, range deletion included, touches a row of this store |
| `Store.RegistryPrefixHasBound` | database/src/registry.rs:5-299 | the range bound exists for every prefix starting with a byte other than the separator |
| `Calls.StepSimulated` | database/src/access.rs:134-213 | with write calls taken apart into cache half and writer operations, every step of calls that keep apart on each key is a step of whole calls for the keys at rest |
| `Calls.RunSimulated` | database/src/access.rs:134-213 | so every interleaving of such calls is a run of whole calls |
| `Calls.CallsExactly` | database/src/access.rs:44-213 | with calls kept apart, keys at rest are coherent all the way if and only if the steps are sound when the writer gets the last operation on a key; `Overlaps.OverlapsExactly` is the condition without that restriction |
| `Calls.CallsAreTransparent` | database/src/access.rs:44-68 | then `read` and `has` of an unstaged key at rest answer as the plain map |
| `Overlaps.StepExactly` | database/src/access.rs:44-213 | with calls overlapping in any way, also on one key, the exact condition for each single step to keep the keys at rest coherent: only the writer operation that leaves a cached key at rest and the fill of a key at rest have one |
| `Overlaps.RowHistory` | database/src/access.rs:134-213 | a committed row is what the last writer operation or commit since any earlier moment left there, in every interleaving of halves |
| `Overlaps.OverlapsExactly` | database/src/access.rs:44-213 | over every interleaving of reads, halves of writes and deletions, commits and evictions, keys at rest are coherent all the way if and only if each writer operation that leaves a cached key at rest agrees with the cached value and the other staging batches, and each fill of a key at rest with what happened to it since the fetch |
| `Overlaps.OverlapsAreTransparent` | database/src/access.rs:44-68 | then `read` and `has` of an unstaged key at rest answer as the plain map, and a cached staged key at rest holds what every staging batch will leave |
| `Calls.DeleteOverWrite` | database/src/access.rs:134-189 | a write inside the two halves of a deletion of the same key leaves the value cached and no row |
| `Calls.FillBetweenHalves` | database/src/access.rs:51-143 | a fill between the halves of a write leaves the old value cached for good |
| `Access.Db.WriteBatch` | database/src/writer.rs:61-92 | committing a batch applies its operations in order |
| `Access.CachedDbAccess.constructor` | database/src/access.rs:33-35 | a store with a fresh empty cache of the given policy and size measure |
| `Access.Issue` | database/src/writer.rs:36-92 | an operation goes to the DB or to the end of the batch |
| `Access.IssueAll` | database/src/access.rs:145-161 | the operations of an iterator reach the writer in order |
| `Access.CachedDbAccess.Has` | database/src/access.rs:44-49 | answers for cache or DB; for an agreeing cache, exactly for the DB |
| `Access.CachedDbAccess.Read` | database/src/access.rs:51-68 | returns the DB row through an agreeing cache and keeps it agreeing; a missed row is inserted under the cache policy; a miss is the fetch and fill of the state machine, up to evictions |
| `Access.CachedDbAccess.ReadWithFallback` | database/src/access.rs:87-113 | primary row, else converted fallback row; caches under the primary key; the cache stays in step with that view, and with the primary rows if and only if the fallback was not needed or not kept |
| `Access.CachedDbAccess.Write` | database/src/access.rs:134-143 | the value is inserted under the cache policy; cache and writer agree after the write if they did before; the call is the machine's write, up to evictions |
| `Access.CachedDbAccess.WriteMany` | database/src/access.rs:145-161 | all puts are issued in order, cache and writer agree if they did before; the call is the machine's writes one by one, up to evictions |
| `Access.CachedDbAccess.WriteManyWithoutCache` | database/src/access.rs:164-180 | all puts are issued and the cache is emptied; the call is the machine's uncached writes |
| `Access.CachedDbAccess.Delete` | database/src/access.rs:182-189 | the key leaves the cache and the rows, agreement is kept; the call is exactly the machine's removal |
| `Access.CachedDbAccess.DeleteMany` | database/src/access.rs:191-201 | exactly the listed keys of this store leave the cache and the rows; the call is exactly the machine's removals in order |
| `Access.CachedDbAccess.DeleteAll` | database/src/access.rs:204-213 | exactly the rows with the store prefix disappear and the cache is empty; the call is exactly the machine's clearing step |
| `Steps.WritesPlayed` | database/src/access.rs:145-161 | writing entry by entry ends where caching all entries and then writing all of them does |
| `Steps.OverwritesPlayed` | database/src/access.rs:164-180 | uncached writes leave all puts and none of their keys in the cache |
| `Steps.RemovesPlayed` | database/src/access.rs:191-201 | removing key by key ends where removing all keys from the cache and then from the DB does |
| `Steps.EvictionReaches` | database/src/cache.rs:61-84 | states that agree up to eviction are one eviction step apart, so the calls above are runs of the state machine |
| `Access.DeletesAt` | database/src/access.rs:191-201 | deleting a list of keys empties exactly those rows of the store |
| `Access.PutAllAgrees` | database/src/access.rs:145-161 | caching a list of entries and writing it keep in step, repeated keys included |
| `Item.CachedDbItem.Read` | database/src/item.rs:29-43 | cached value, else row, which is then cached: the fetch and fill of the machine with calls taken apart |
| `Item.CachedDbItem.Fill` | database/src/item.rs:36-39 | the second half of a missing read is the fill step of the machine with calls taken apart, whatever others do meanwhile |
| `Item.CachedDbItem.CacheItem` | database/src/item.rs:45-49 | the first half of a write is the beginning of a call there |
| `Item.CachedDbItem.DropItem` | database/src/item.rs:55-57 | so is the first half of a removal |
| `Item.CachedDbItem.Hand` | database/src/item.rs:50-60 | the second half hands that call's operation to the writer |
| `Item.CachedDbItem.Write` | database/src/item.rs:45-53 | caches the value and writes it to the DB or the batch: one call of that machine, begun and handed over |
| `Item.CachedDbItem.Remove` | database/src/item.rs:55-60 | clears the cached value and deletes the key in the DB or the batch: one call of that machine |
| `Item.CachedDbItem.Update` | database/src/item.rs:62-82 | applies the operation to the current value, stores and returns it: one write call of that machine, begun and handed over; nothing happens to a missing item |
| `Item.ItemIsTransparent` | database/src/item.rs:29-82 | every allowed command sequence of one user with one open batch behaves as on a plain item; for interleaved halves and any number of batches see `Overlaps.OverlapsExactly` with the item's key as prefix |
| `Item.StepExact` | database/src/item.rs:29-82 | for each whole command, the exact condition under which a coherent item stays coherent |
| `Item.ReadResurrectsRemoved` | database/src/item.rs:29-60 | a read between a staged removal and its commit brings the removed value back for good |
| `Pages.IteratorListsStore` | database/src/access.rs:115-132 | `iterator` visits each row of the store exactly once in key order, and the prefix is stripped correctly |
| `Pages.SeekIs` | database/src/access.rs:254-295 | for any bucket and seek key, exactly the rows visited: those of the bucket from the key on, in order, without the first when it is skipped, up to the limit |
| `Pages.PageFollows` | database/src/access.rs:254-295 | a page of a bucket sought from one of its rows with `skip_first` starts right behind it and holds up to the limit |
| `Pages.FirstPage` | database/src/access.rs:254-295 | an unsought page is the beginning of the bucket's listing |
| `Pages.CollectPages` | database/src/access.rs:254-295 | concatenated pages of a bucket are exactly what an iterator over it visits |
| `Pages.SkipLosesRow` | database/src/access.rs:254-295 | seeking from a key that is gone finds the row behind it without `skip_first` and loses it with it |
| `Pages.SkipExact` | database/src/access.rs:254-295 | a page with `skip_first` loses no row of the bucket if and only if the sought key is one of its rows or nothing follows it |
| `FifoGuard.DropExpired` | bridge/src/share_handler.rs:186-199 | the expiry loop pops exactly the longest queue prefix without a fresh key |
| `FifoGuard.DropOverflow` | bridge/src/share_handler.rs:201-207 | the capacity loop pops until the entries fit or the queue is empty |
| `FifoGuard.Prune` | bridge/src/kaspaapi.rs:70-92 | both loops in order |
| `FifoGuard.ExpiredSlotsExact` | bridge/src/share_handler.rs:186-199 | n slots are popped if and only if none of the first n keys is fresh |
| `FifoGuard.OverflowSlotsExact` | bridge/src/share_handler.rs:201-207 | the capacity loop stops as soon as the table fits and not before |
| `FifoGuard.PrunedKeeps` | bridge/src/share_handler.rs:186-208 | pruning changes no surviving entry and keeps a one-to-one queue one-to-one |
| `FifoGuard.PrunedKeepsFresh` | bridge/src/kaspaapi.rs:70-92 | with the capacity loop idle, even with stale or repeated queue slots, no fresh entry is lost |
| `FifoGuard.PrunedSlots` | bridge/src/kaspaapi.rs:70-92 | exactly which queue slots a prune pops, for any queue |
| `FifoGuard.SurvivalExactly` | bridge/src/kaspaapi.rs:70-92 | exactly which keys survive a prune, stale and repeated slots included: those with an entry none of whose slots lacks a fresh key at or before it or comes up while too many entries are left |
| `FifoGuard.Survival` | bridge/src/share_handler.rs:186-208 | in a one-to-one queue: a fresh key at or before their place, and fewer than the maximum behind them |
| `SubmitGuard.DuplicateSubmitGuard.constructor` | bridge/src/share_handler.rs:182-184 | an empty one-to-one guard |
| `SubmitGuard.DuplicateSubmitGuard.PruneAt` | bridge/src/share_handler.rs:186-208 | the pruned table, with queue and entries still one-to-one |
| `SubmitGuard.DuplicateSubmitGuard.Get` | bridge/src/share_handler.rs:210-213 | prunes, then returns the recorded outcome |
| `SubmitGuard.DuplicateSubmitGuard.InsertInflight` | bridge/src/share_handler.rs:215-222 | prunes, then records a new key as in flight at the back of the queue |
| `SubmitGuard.DuplicateSubmitGuard.SetOutcome` | bridge/src/share_handler.rs:224-230 | prunes, then restamps the key without moving it in the queue |
| `SubmitGuard.DuplicateSubmitGuard.Enter` | bridge/src/share_handler.rs:475-484 | the opening critical section is one step of the run model |
| `SubmitGuard.AlwaysOneToOne` | bridge/src/share_handler.rs:174-231 | in every interleaving the queue lists the remembered keys exactly once each |
| `SubmitGuard.HeldThrough` | bridge/src/share_handler.rs:475-508 | run invariant: an admitted key holds its latest outcome and has behind it exactly the keys admitted since |
| `SubmitGuard.Remembered` | bridge/src/share_handler.rs:475-508 | until the TTL after its latest stamp, and with fewer than the maximum of other admissions, every lookup finds the recorded outcome |
| `SubmitGuard.EvaluatedOnce` | bridge/src/share_handler.rs:475-508 | a key is admitted a second time only after such a gap or so many admissions |
| `SubmitGuard.ExpiredEntryIsStillFound` | bridge/src/share_handler.rs:186-230 | an expired entry behind a restamped front key is still found |
| `BlockGuard.BlockSubmitGuard.TryMark` | bridge/src/kaspaapi.rs:94-102 | marks exactly the hashes without a mark after pruning |
| `BlockGuard.BlockSubmitGuard.Remove` | bridge/src/kaspaapi.rs:104-107 | removes the mark and leaves its queue slot behind |
| `BlockGuard.BeginPasses` | bridge/src/kaspaapi.rs:94-102 | in any state a second attempt passes if and only if the hash has no mark or one of its queue slots is lost to the prune |
| `BlockGuard.StepExactly` | bridge/src/kaspaapi.rs:395-460 | a step within the TTL keeps exclusion, ownership of marks and settled marks if and only if no needed mark comes up while more marks are left than fit, expired ones included |
| `BlockGuard.RunExactly` | bridge/src/kaspaapi.rs:395-460 | the same over whole runs within the TTL: exclusion, ownership of marks and settled marks hold together throughout if and only if no step is crowded |
| `BlockGuard.ExclusionExactly` | bridge/src/kaspaapi.rs:395-460 | in every run, however slow the replies: no two tasks ever submit one hash at once if and only if no task begins while its hash is in flight with its mark gone or a queue slot of it lost to the prune |
| `BlockGuard.RoomyIsUncrowded` | bridge/src/kaspaapi.rs:70-92 | a table that never holds more marks than its limit, expired ones included, is never crowded |
| `BlockGuard.OnlySuccessKeeps` | bridge/src/kaspaapi.rs:420-438 | for every reply and every error text the mark is released if and only if the reply is no success, since the printed context names no duplicate |
| `BlockGuard.SettledIsRefused` | bridge/src/kaspaapi.rs:395-460 | in uncrowded runs within the TTL, after a success every attempt is refused until the mark expires |
| `BlockGuard.FailedMayRetry` | bridge/src/kaspaapi.rs:395-460 | after a rejection, a failure or a duplicate reply the next attempt passes at once, in any state |
| `BlockGuard.DuplicateMayRetry` | bridge/src/kaspaapi.rs:420-431 | in particular after the node's duplicate error, in any state |
| `BlockGuard.RetryExactly` | bridge/src/kaspaapi.rs:395-460 | in any state the mark outlives the reply if and only if it was a success and the mark was still there, and the next attempt passes if and only if it was none, or the mark is gone or lost to the prune |
| `BlockRaces.SlowReplyBreaksExclusion` | bridge/src/kaspaapi.rs:395-460 | an RPC longer than the TTL lets a second task in |
| `BlockRaces.OverflowBreaksExclusion` | bridge/src/kaspaapi.rs:70-102 | for every capacity, one task more than it lets a second task in for the oldest hash |
| `BlockRaces.ShieldedMarkBreaksExclusion` | bridge/src/kaspaapi.rs:70-107 | unexpired marks that fit do not suffice: a run with every RPC within the TTL and never more unexpired marks than the limit in which two tasks submit one hash at once |
| `BlockRaces.ExpiredMarkMayStillBlock` | bridge/src/kaspaapi.rs:70-107 | a stale queue slot can shield a mark beyond its TTL |
| `JobRing.RingExtends` | bridge/src/mining_state.rs:54-73 | storing a job in its slot keeps the ring equal to the last 300 jobs of the log |
| `JobRing.MiningState.constructor` | bridge/src/mining_state.rs:38-52 | an empty ring |
| `JobRing.MiningState.AddJob` | bridge/src/mining_state.rs:54-73 | appends to the unbounded log and returns its length as the id |
| `JobRing.MiningState.GetJob` | bridge/src/mining_state.rs:81-90 | after n additions a job is found if and only if 1 <= id and n-300 < id <= n, and it is the id-th job added |
| `WalkBack.Evaluate` | bridge/src/share_handler.rs:522-1050 | with jobs added concurrently, at most 300 candidates, descending from the submitted id, none twice, never id 0, stopping at the first that meets a target |
| `WalkBack.VerdictMeans` | bridge/src/share_handler.rs:522-1057 | in terms of PoW value and targets, with jobs and targets changing: every candidate before the last misses both targets, and each verdict holds if and only if the last candidate meets the network target and the node answers so, or meets only the pool target, or neither |
| `WalkBack.MissingMeans` | bridge/src/share_handler.rs:395-424 | a missing job is answered exactly when the ring does not hold the submitted id |
| `WalkBack.WalkedBackUnique` | bridge/src/share_handler.rs:522-1050 | that contract determines verdict and number of candidates |
| `WalkBack.UnchangingRing` | bridge/src/share_handler.rs:954-1049 | on an unchanging ring the scan reaches max(1, n-299); the highest id whose PoW value meets the network or pool target decides: credited exactly when it is pool-valid or a block the node takes, stale or bad by the node's answer, low difficulty without one |
| `Nonce.ExtranonceAllocator.Assign` | bridge/src/client_handler.rs:92-137 | the n-th allocation gives n mod 65536 as four digits; Bitmain clients get none and use none up |
| `Nonce.AllocationsRepeat` | bridge/src/client_handler.rs:104-131 | two allocations coincide if and only if they are a multiple of 65,536 apart |
| `Hex.DigitIs` | bridge/src/share_handler.rs:459-467 | the sixteen digits in either case and their values |
| `Nonce.StripBare` | bridge/src/share_handler.rs:432 | a text without 0x is left as it is |
| `Nonce.StripAt` | bridge/src/share_handler.rs:432 | every 0x goes, wherever it stands, and the rest is stripped piece by piece |
| `Nonce.PlainNonce` | bridge/src/share_handler.rs:432-467 | without an extranonce a submission stands for its hexadecimal value after an optional plus sign, and fails exactly without digits or beyond 64 bits |
| `Nonce.ShortNonce` | bridge/src/share_handler.rs:432-467 | up to twelve digits parse to extranonce * 2^48 + nonce, and fail exactly when the text is not hexadecimal |
| `Nonce.LongNonce` | bridge/src/share_handler.rs:447-457 | longer nonces are parsed alone, whatever the extranonce |
| `Nonce.ExtranonceIgnored` | bridge/src/share_handler.rs:432-467 | the extranonce has no say in the nonce if and only if the text is longer than twelve digits or not hexadecimal |
| `Nonce.ClientsApart` | bridge/src/share_handler.rs:432-467 | two clients produce the same nonce from short submissions if and only if their allocations repeat and their digits agree |
| `Encoding.LargeJobParams` | bridge/src/hasher.rs:367-390 | the BzMiner form equals the IceRiver form of the first 32 bytes, and panics exactly on shorter data |
| `Encoding.FixedIsHex` | bridge/src/hasher.rs:367-390 | formatting a big-endian word is hex encoding of its bytes |
| `Encoding.SwappedTimestamp` | bridge/src/hasher.rs:380-386 | the byte-swapped timestamp prints as its little-endian bytes |
| `Encoding.JobRoundTrip` | bridge/src/hasher.rs:277-337 | the string has 80 digits and decodes to the hash and timestamp |
| `Encoding.JobHeader` | bridge/src/hasher.rs:253-267 | the legacy words decode back to the leading whole words of the data, the full hash for 32 bytes |
| `VarDiff.ClampDoublesOrHalves` | bridge/src/share_handler.rs:46-54 | from a power of two the clamp turns any step of at most a factor of two into a doubling or a halving |
| `VarDiff.UnclampedStep` | bridge/src/share_handler.rs:56-102 | without the clamp a change stays within a factor of two and at least one |
| `VarDiff.ClampedStep` | bridge/src/share_handler.rs:56-102 | with the clamp every change exactly doubles or halves |
| `VarDiff.TooEarly` | bridge/src/share_handler.rs:56-77 | windows under 30 seconds, one or two shares, and less than 90 seconds without a share change nothing |
| `VarDiff.StepDirection` | bridge/src/share_handler.rs:56-102 | the difficulty rises only for three shares or more at 1.25 times the expected rate, and falls only for as many at 0.75 times it or for 90 seconds without a share |
| `VarDiff.IdleStep` | bridge/src/share_handler.rs:64-73 | 90 seconds without a share halve the difficulty down to one, exactly so for a clamped power of two, and leave it alone exactly when the change would be 2^-52 or less |
| `VarDiff.IdleUnclamped` | bridge/src/share_handler.rs:64-73 | over any number of idle ticks without the clamp, the difficulty is the start halved as often, down to one or to a value at most 2^-52 above it |
| `VarDiff.IdleClamped` | bridge/src/share_handler.rs:64-73 | the same with the clamp, down to one |
| `VarDiff.IdleSettles` | bridge/src/share_handler.rs:64-73 | so an idle worker comes down to one, without the clamp exactly unless the halving meets a value just above one |
| `VarDiff.StartIs` | bridge/src/stratum_server.rs:84-90 | the start is the configured value or four, with the clamp the greatest power of two not above it |
| `VarDiff.ReachableDiff` | bridge/src/stratum_server.rs:84-90 | every difficulty reachable from the configured start is at least one, and a power of two with the clamp |
| `VarDiff.TickMoves` | bridge/src/share_handler.rs:56-102 | a qualifying tick moves toward the ideal by a tenth or more, never past it, and rests exactly in the dead band or next to the floor |
| `VarDiff.NeverCrosses` | bridge/src/share_handler.rs:1599-1612 | over any number of ticks the observed ratio never crosses one |
| `VarDiff.Converges` | bridge/src/share_handler.rs:1599-1612 | the difficulty stops changing after a bounded number of ticks, with the ratio in (0.75, 1.25) or the difficulty below 10/9 |
| `VarDiff.ClampedAdjust` | bridge/src/share_handler.rs:46-102 | outside the dead band a clamped adjustment doubles above it and halves below it, down to one |
| `VarDiff.ClampedCycle` | bridge/src/share_handler.rs:46-102 | one pair of ticks: from c up to 2c and back if and only if the ideal is 1.25 to 1.5 times c |
| `VarDiffClamped.TickIsStep` | bridge/src/share_handler.rs:46-102 | a clamped tick doubles, halves or rests depending on the ideal difficulty alone |
| `VarDiffClamped.SettlesExactly` | bridge/src/share_handler.rs:1599-1612 | clamped runs from a power of two stop changing if and only if no power of two lies between 2/3 and 4/5 of the ideal difficulty; otherwise they change at every tick, and if they stop it is within a bounded number of ticks |
| `VarDiff.VarDiffTick` | bridge/src/share_handler.rs:1596-1612 | every worker, and each exactly once, is left alone or gets its new difficulty and a fresh window |
| `VarDiff.TickedIs` | bridge/src/share_handler.rs:1599-1612 | a tick changes nothing before the window has started, too early or with one or two shares; a change starts a new window now, without shares |
| `VarDiff.IdleWorker` | bridge/src/share_handler.rs:1599-1612 | a worker of difficulty two or more without a share for 90 seconds gets half its difficulty and a new window |
| `VarDiff.TickedIsTick` | bridge/src/share_handler.rs:1599-1612 | otherwise a tick is that of a miner which found the worker's shares since its window started, so convergence applies to it |
| `VarDiff.TickedStaysValid` | bridge/src/share_handler.rs:1599-1612 | a tick keeps a worker's difficulty at least one and, clamped, a power of two |
| `Target.TargetDefined` | bridge/src/hasher.rs:155-179 | the division is by zero exactly for positive difficulties below 10^-18; without a positive difficulty the target is the maximum |
| `Target.MaxTargetIs` | bridge/src/hasher.rs:155-169 | the maximum target is 2^224 - 1 |
| `Target.TargetIs` | bridge/src/hasher.rs:155-179 | for every difficulty, fractional ones included, the target is the maximum divided by the difficulty, which is cut to 18 decimals first and capped by the cast |
| `Target.TinyDifficultyPanics` | bridge/src/hasher.rs:155-179 | the target of difficulty 10^-19 divides by zero |
| `Target.TargetIsPositive` | bridge/src/hasher.rs:155-179 | a defined target is positive, even when the cast saturates |
| `Target.TargetIsAntitone` | bridge/src/hasher.rs:155-179 | a higher difficulty never gives a higher target |
| `Target.WholeDiffTarget` | bridge/src/hasher.rs:155-179 | for whole difficulties that fit the cast the target is exactly the integer quotient |
| `Target.ReachableTarget` | bridge/src/hasher.rs:155-179 | every difficulty the controller can reach has a positive target |
| `Ledger.ShareStats.GetCreateStats` | bridge/src/share_handler.rs:274-297 | the worker's live record, created at zero when there is none |
| `Ledger.ShareStats.BumpRecord` | bridge/src/share_handler.rs:911-936 | the worker half of a counter update, through a handle that may have been pruned |
| `Ledger.ShareStats.BumpTotals` | bridge/src/share_handler.rs:913-937 | the overall half |
| `Ledger.ShareStats.PruneStats` | bridge/src/share_handler.rs:1164-1171 | pruned workers leave the table, their records stay with their holders |
| `Ledger.NextKeepsInv` | bridge/src/share_handler.rs:1052-1103 | every step of every task, and every prune, keeps the books |
| `Ledger.RunKeepsInv` | bridge/src/share_handler.rs:1052-1103 | the books over whole runs |
| `Ledger.LivePlusPruned` | bridge/src/share_handler.rs:1164-1171 | the sum over all records is the sum over live workers plus the sum over pruned records |
| `Ledger.TotalsAgree` | bridge/src/share_handler.rs:905-948 | overall accepted + stale + invalid counts exactly the finished evaluations; each total trails live plus pruned records only by updates still between their two halves (which verdicts they count: `Shares.TotalsAreVerdicts`) |
| `Ledger.QuiescentTotals` | bridge/src/share_handler.rs:1052-1103 | once all tasks have ended, both equalities are exact (by verdict: `Shares.QuiescentVerdicts`) |
| `Workers.NextKeepsInv` | bridge/src/share_handler.rs:274-297 | every step keeps tasks with records of their own worker, and each worker's books |
| `Workers.WorkerBooks` | bridge/src/share_handler.rs:274-297 | in every interleaving the records of a worker, live and pruned, count exactly the updates of its own tasks |
| `Workers.RetainedWorker` | bridge/src/share_handler.rs:1164-1171 | a worker that is never pruned has one record at most, and it counts exactly those |
| `Shares.NextKeepsInv` | bridge/src/share_handler.rs:475-1103 | every step of guard, evaluation and counting keeps tasks and guard admissions in correspondence |
| `Shares.RunKeepsInv` | bridge/src/share_handler.rs:475-1103 | the correspondence in every interleaving |
| `Shares.CreditedOnce` | bridge/src/share_handler.rs:475-1103 | two tasks end as counted shares of one key only if the guard forgot it in between, by the TTL or the number of other admissions |
| `Shares.TasksAreAdmissions` | bridge/src/share_handler.rs:475-508 | every task that is counting or has counted a share was admitted by the guard, later tasks by later submits |
| `Shares.TotalsCountAdmissions` | bridge/src/share_handler.rs:905-1103 | accepted + stale + invalid plus the evaluations under way is the number of submits the guard admitted |
| `Shares.QuiescentCredits` | bridge/src/share_handler.rs:905-1103 | and exactly that number once every task has ended |
| `Shares.DoneMeans` | bridge/src/share_handler.rs:1052-1103 | in every interleaving a task counted as accepted found a valid share, one counted as stale a stale block, one counted as invalid a low difficulty or a bad block, and conversely |
| `Shares.TotalsAreVerdicts` | bridge/src/share_handler.rs:1052-1103 | so the three totals are the numbers of ended tasks with these verdicts |
| `Shares.QuiescentVerdicts` | bridge/src/share_handler.rs:1052-1103 | once every task has ended, every admitted submit has a verdict and the totals are the numbers of admitted submits by verdict |
| `Shares.DuplicateAnswer` | bridge/src/share_handler.rs:486-508 | a remembered duplicate is answered as in flight or with the verdict of a task for the same key, outcome by outcome |
| `Framing.ClientListener.constructor` | bridge/src/stratum_listener.rs:278-288 | a fresh connection |
| `Framing.ClientListener.OnRead` | bridge/src/stratum_listener.rs:353-525 | one read: NUL stripping, first-read test, length cap, dispatch |
| `Framing.ClientListener.DispatchLines` | bridge/src/stratum_listener.rs:527-589 | the line loop: trimmed non-blank lines in order up to the first HTTP-looking one |
| `Framing.TrimIs` | bridge/src/stratum_listener.rs:527-528 | trimming takes the characters 9 to 13 and 32 off both ends and nothing else |
| `Framing.StripNulIs` | bridge/src/stratum_listener.rs:358 | what is kept of a read is its characters other than NUL, each in its place |
| `Framing.HttpLikeIs` | bridge/src/stratum_listener.rs:366-377 | the lines taken for HTTP: SM, and those starting with the preface or one of six methods; never one that starts with a brace |
| `Framing.MessagesAre` | bridge/src/stratum_listener.rs:527-531 | line by line, a stream means its lines trimmed, without the blank ones, and the unfinished rest |
| `Framing.DrainIs` | bridge/src/stratum_listener.rs:527-589 | the loop keeps the connection if and only if no line looks like HTTP, and then dispatches exactly the split, trimmed, non-blank lines |
| `Framing.FramingMore` | bridge/src/stratum_listener.rs:510-531 | framing a longer stream is framing its beginning, then its tail with the rest |
| `Framing.Framed` | bridge/src/stratum_listener.rs:353-531 | for every split into reads, a live connection has dispatched exactly the lines of the NUL-stripped stream and holds exactly its tail, without newline and within the limit; a dead one has dispatched a prefix |
| `Framing.SplitsAgree` | bridge/src/stratum_listener.rs:360-531 | for streams of short non-HTTP lines, all splits dispatch the same if and only if no possible first read reads as SM |
| `Framing.SplitMatters` | bridge/src/stratum_listener.rs:366-377 | a line and a split of it for which they differ |
| `Connections.ConnectionTable.constructor` | bridge/src/stratum_listener.rs:164-169 | all permits free, no address counted |
| `Connections.ConnectionTable.TryAcquire` | bridge/src/stratum_listener.rs:232-241 | takes a permit if there is one |
| `Connections.ConnectionTable.CountIp` | bridge/src/stratum_listener.rs:243-253 | counts the address or turns the client away at the truncated cap |
| `Connections.ConnectionTable.DropIpGuard` | bridge/src/stratum_listener.rs:71-81 | decrements, and removes an entry that reaches zero |
| `Connections.ConnectionTable.ReturnPermit` | bridge/src/stratum_listener.rs:264-272 | gives the permit back |
| `Connections.NextKeepsInv` | bridge/src/stratum_listener.rs:224-273 | every step of accepting and ending keeps the accounting invariant |
| `Connections.RunKeepsInv` | bridge/src/stratum_listener.rs:224-273 | the invariant in every interleaving |
| `Connections.LimitsHold` | bridge/src/stratum_listener.rs:224-273 | counts equal live guards, their total is at most the permits held, these are at most the configured cap, and the limit per address holds |
| `Connections.AdmittedExactly` | bridge/src/stratum_listener.rs:224-273 | in every reachable state a client gets a permit if and only if fewer are held than the cap, and is let in if and only if its address has fewer connections than the truncated cap and the count does not overflow |
| `Connections.GuardIsCounted` | bridge/src/stratum_listener.rs:71-81 | the saturating decrement never saturates |
| `Connections.NoZeroExactly` | bridge/src/stratum_listener.rs:243-253 | in every run no address keeps a zero entry, if and only if the cap is zero or does not truncate to zero |
| `Connections.RefusedLeavesZero` | bridge/src/stratum_listener.rs:243-253 | the run that leaves one otherwise |
| `Connections.NoLeak` | bridge/src/stratum_listener.rs:224-273 | when all tasks have ended every permit is back and the table is empty |
| `CpuMiner.SharedWork.constructor` | bridge/src/rkstratum_cpu_miner.rs:54-56 | nothing published, version zero |
| `CpuMiner.SharedWork.Publish` | bridge/src/rkstratum_cpu_miner.rs:58-63 | the version is the number of publications modulo 2^64 and the slot holds the latest |
| `CpuMiner.SharedWork.Update` | bridge/src/rkstratum_cpu_miner.rs:65-74 | a woken thread gets the latest work, newer than what it had seen, or nothing at shutdown |
| `CpuMiner.Search` | bridge/src/rkstratum_cpu_miner.rs:226-260 | the inner loop tests the consecutive nonces of its walk, stops at the first that passes or the first sign to leave, and keeps a found nonce but moves past a failed one |
| `CpuMiner.NextKeepsInv` | bridge/src/rkstratum_cpu_miner.rs:212-261 | every step of publisher and threads keeps the thread and test invariants |
| `CpuMiner.RunKeepsInv` | bridge/src/rkstratum_cpu_miner.rs:212-261 | the invariants in every interleaving |
| `CpuMiner.OneBlockPerWork` | bridge/src/rkstratum_cpu_miner.rs:212-261 | a thread submits at most one block per publication, across version wraps |
| `CpuMiner.OutdatedOnce` | bridge/src/rkstratum_cpu_miner.rs:226-260 | in every interleaving all tests of a thread on one publication but the last were made while it was the newest, unless the version wrapped |
| `CpuMiner.NoIdleThread` | bridge/src/rkstratum_cpu_miner.rs:212-261 | a thread stops only at shutdown and waits only before its first work, after a block of it, or for newer work |
| `CpuMiner.NoncesApart` | bridge/src/rkstratum_cpu_miner.rs:212-261 | in every interleaving two threads never test one nonce before either wraps (coprime counts), or ever (counts dividing 2^64) |
| `CpuMiner.CoprimeKeepsApart` | bridge/src/rkstratum_cpu_miner.rs:214-242 | for counts coprime to 1,000,000,007 the unwrapped walks never meet |
| `CpuMiner.SharedWithSpread` | bridge/src/rkstratum_cpu_miner.rs:214-220 | 1,000,000,007 is prime, so a thread count shares a divisor with it if and only if it is a multiple of it |
| `CpuMiner.ApartExactly` | bridge/src/rkstratum_cpu_miner.rs:214-242 | for every 64-bit thread count, nonces stay apart before the wrap if and only if the count is coprime to the spacing, that is, no multiple of it |
| `CpuMiner.ApartForever` | bridge/src/rkstratum_cpu_miner.rs:214-242 | counts dividing 2^64 keep each thread in its own residue class across wraps |

## Left out

- Ledger.ShareStats.PruneStats: the workers to drop are an arbitrary set, which covers the retention test on idle time and share count without modelling it.
- CpuMiner.SharedWork.Update: models the return of the wait, not the blocking itself; the outer thread loop is given as its steps.
- CpuMiner.Search: takes a bound on the number of tests, since the source loop need not end.
- JobRing.MiningState.AddJob: the 64-bit job counter is unbounded.
- Nonce.ExtranonceAllocator.Assign: detection of Bitmain clients by name is a parameter.
- Floating point: difficulties are reals, so rounding, infinities and NaN do not occur; the cast to 128 bits does saturate.
- Clocks are natural or real numbers that the steps carry; monotonicity is assumed only where a predicate says so.
- Serialization and RocksDB: rows hold values, writes succeed, a batch commits atomically; decode errors are not modelled.
- Text is ASCII, so lossy UTF-8 decoding changes nothing and one byte is one character.
- Message handlers, parsing of JSON, timeouts and the pre-authorization deadline: a connection is modelled only up to the dispatch of a line.
- PoW, header hashing and the network target are uninterpreted functions of the job.
- The environment-variable variants of the target calculation, `calculate_target` and hash-rate figures.
- `has_with_fallback`, `is_empty`, `delete_all_and_compact`, `remove_many` of the bare cache and the display form of keys: easy members.
- `CachedDbSetItem`, which rests on a file that is not part of this model.
- Per-share difficulty sums, last-share times and exported metrics.
- Sockets, gRPC, logging, configuration, the dashboard and the wallet.
