# GoCache in Dafny

GoCache is a Redis-style cache written in Go with a Python client: an LRU cache with expiry, an append-only log
and snapshots, leader-to-follower replication, a consistent-hash ring with key migration, and a RESP front end
with transactions and publish/subscribe. This project models those parts and proves properties of all inputs, all
runs and all interleavings. `dafny verify dfyconfig.toml` checks everything.

Code that changes state in place is modelled by classes and loops (`LruList`, `CacheHeap`, `HashRing`, `Transfer`,
`Migrator`, `ReplicationNodes`, `Aof`, `PubSub`, `Handler`, `RespReader`, and the buffered reader in `PyClient`),
each method proved against a function or a step of a value-level module. The theorems are about those functions:

- **Cache.** The linked list, the map and the byte counter refine a recency sequence with a map. In every run the
  sequence is ordered by last set or hit, eviction takes exactly the least recent key, and a smaller cache's
  contents are always contained in a larger one's (`CacheRuns.InclusionOverRuns`). Against an unbounded dictionary
  every hit is right, and without eviction the two are equal (`CacheContents`).
- **Ring and migration.** Lookups are the nearest position clockwise; adding moves keys only to the new shard;
  two rings agree exactly when built from the same names; plans cover exactly the hashes whose successor changes
  hands; no failure of the network loses a live key; a migration succeeds exactly if every answer it needs was good;
  and where every key is after a completed join or departure is known exactly (`MigrationOutcome`).
- **Replication.** Over every interleaving, draining a follower's queue gives the leader's value for every key
  the leader holds, and sequence numbers are never reused (`Replication.RunInStep`, `Convergence`, `RunNumbered`).
- **Persistence.** Parsing undoes encoding; a log cut anywhere yields exactly its whole commands; and recovery
  after every run, with crashes inside appends, snapshots and rewrites along the way, restores every entry without
  expiry, provided torn bytes leave the log before the next append (`PersistenceRuns.PermanentSurvives`,
  `CrashSafety`), and every entry that is still live with its value (`LiveRuns.LiveSurvives`); the same stated for the
  commands clients sent is `Durability`.
- **Server and clients.** What a client reads in reply, on any connection and after any interleaving, is what a plain
  dictionary of the commands says (`Answers`, `ServerAnswers`). EXEC equals issuing the commands one by one, up to the
  bytes on the connection (`Connections.TransactionIsDirect`), and DISCARD undoes everything since MULTI; connection
  and subscription invariants hold over every run; redirects take one hop to the leader of a configured shard; the
  Python reader's answers do not depend on how the stream was cut into chunks.

## What the code does not promise

Where a property fails, the code is kept as it is and the exact condition is proved:

- Task ranges are half-open on the other side than ownership arcs, so a key whose hash is itself a ring position
  can be planned wrongly (`MigrationPlan.AddPlanAtPositions`, `MigrationPlan.AddPlanWrongSomewhere`); everywhere
  else the plan is exact.
- A join task names the shard at the position before the new one as its source, although its keys belong to the
  position after it (`MigrationPlan.AddTaskSource`, `MigrationPlan.AddTaskNamesOther`).
- The removal plan misses keys exactly when two neighbouring positions belong to the leaving shard
  (`MigrationPlan.RemovePlanCovers`, `MigrationPlan.RemovePlanMissesNeighbours`).
- Re-adding a present shard and removing it once leaves positions owned by nobody
  (`RingModel.RemoveValid`, `RingModel.ReAddThenRemoveDangles`).
- An entry in its last second becomes permanent in a snapshot or rewritten log, and a rewrite can bring back keys
  of the older snapshot (`Persistence.SnapshotExact`, `Persistence.RewriteExact`; failing inputs
  `Persistence.FadingComesBack`, `Persistence.RewriteRevives`).
- A TTL that overflows to a positive fraction of a second is logged as none, so the entry comes back for good
  (`PersistenceRuns.ChangeExact`, `PersistenceRuns.VanishingTtl`).
- Torn bytes are never truncated, so an append behind them is lost, and commands may be invented: a command is read
  at its start exactly when nothing torn precedes it (`TornTail.ReadAtStartIffWhole`), what each kind of tear loses or
  invents is in `TornCases`, and a write of a new nonempty key without a star that is no word of the torn command is
  recovered exactly when the log has no torn bytes (`TornLoss.RecoverableIffWhole`, `TornLoss.WriteAfterCrashIsLost`).
  Other keys can be recovered behind a tear by chance (`TornLoss.RepeatedWriteIsRead`, `TornLoss.StarKeyIsRead`).
- A follower that comes from an earlier leader can be ahead of the new one's numbers
  (`Replication.AheadIffAttachedAhead`, `Replication.FollowerOfEarlierLeaderIsAhead`).
- A reconnected follower can be unregistered in place of its dead connection
  (`Replication.TrackedIffCleanDrops`, `Replication.ReconnectedFollowerStranded`).
- EXEC logs a SET that it rejected, logs an overflowing TTL differently, writes on followers, and runs writes that
  belong to another shard, because queueing comes before routing (`Commands.QueueLogsAlike`,
  `Commands.RejectedSetIsLogged`,
  `Connections.TransactionLogsAlike`, `Connections.RedirectedWriteRuns`, `Connections.FollowerWriteRuns`).
- SUBSCRIBE and UNSUBSCRIBE with a non-string argument can separate subscriber mode from having subscriptions
  (`Connections.SubscribeConsistent`, `Connections.UnsubscribeConsistent`; failing inputs
  `Connections.SubscribeStopsHalfway`, `Connections.UnsubscribeStopsHalfway`).
- A node that joins, or recovers, goes on the ring under its own id and gets no member list, so its keys are handled
  by whichever node is asked (internal/server/state.go:72-75 and 96-99): only the owner's leader keeps a write exactly
  when the owner is a configured shard (`Routing.OnlyLeaderKeepsIff`), and after a completed join no node redirects
  to the keys that moved (`JoinRouting.MovedKeyUnreachable`).
- PING with more than one argument is served outside a transaction and aborts one (`Connections.LongPingAborts`).
- The reply to an unknown command is read as one error exactly if the name holds no line break
  (`Answers.UnknownAnswer`).
- The Go client does not understand the server's redirects: it expects host and port where the server writes the
  node's name and then host and port (`Redirects.RedirectRoundTrip`, `Redirects.ServerRedirectMisread`). It also
  takes a stored value that begins with MOVED for a redirect, and a missing key for an empty value
  (`Redirects.ValueReturned`).
- The Go cluster client does not agree with the servers. Its ring holds the ids of the nodes reported as "active"
  (pkg/client/cluster_client.go:164-172), the servers' ring holds shard ids (internal/server/server.go:336), and rings
  agree exactly when the names do (`ClientRing.RingsAgreeIff`). A server with a health checker reports no node as
  active (internal/server/cluster_commands.go:313-315), so the client's ring is empty (`ClientRing.ClientAddsNoNode`).
- With a node configured in two shards, a redirect can point a node at itself (`Routing.OneHop`, `Routing.SelfRedirect`).

## Assumptions

- The hash is an uninterpreted function to 32-bit integers; statements that need it say that positions do not collide.
- Clocks are parameters. A write with its replication, and an attach from snapshot to registration, are single
  steps, although the code holds no lock across them; replication statements are for stores that neither evict nor
  expire. A write and its append to the log are one step too, and no append falls between taking a snapshot of the
  cache and swapping the file.
- No client writes between the moment a migration collects the values of a range and the moment it deletes them:
  internal/cluster/migrator.go:91-128 holds no cache lock, so such a write is deleted without having been sent.
- Routing statements take the ring's owner as a function of the key and the member lists from the configuration.
- Recovery statements are for at most maxSize distinct keys, so that replay does not evict.
- A connection is a queue of bytes or messages; a file is a byte string whose rename and truncation are atomic. A
  byte is a character, and text decoding is the identity.

## Model

| member | source | states |
|---|---|---|
| `LruList.LRU.RemoveNode` | internal/lru/lru.go:22-47 | Unlinking a node leaves a doubly linked list whose forward and backward chains are mutual reverses over the remaining nodes, in their order. |
| `LruList.LRU.RemoveMiddle` | internal/lru/lru.go:44-46 | The case of a node with two neighbours. |
| `LruList.LRU.RemoveHead` | internal/lru/lru.go:30-35 | The case of the first of several nodes. |
| `LruList.LRU.AddToFront` | internal/lru/lru.go:50-65 | The node becomes the first of the list, everything else keeps its order. |
| `LruList.LRU.MoveToFront` | internal/lru/lru.go:68-76 | A permutation: the node first, the others in their old order. |
| `LruList.LRU.RemoveLRU` | internal/lru/lru.go:80-89 | Removes exactly the last node and returns its key; "" on an empty list. |
| `LruList.LRU.Add` | internal/lru/lru.go:92-102 | A fresh node with the key at the front. |
| `CacheHeap.Cache.Set` | internal/cache/cache.go:40-95 | The heap structure stays linked (map items and list nodes in bijection, byte counter equal to the sum over stored items) and its contents change as in the sequence model. |
| `CacheHeap.Cache.Insert` | internal/cache/cache.go:76-87 | The branch for a new key refines the model. |
| `CacheHeap.Cache.Overwrite` | internal/cache/cache.go:48-87 | The branch for a stored key, updated in place, refines the model. |
| `CacheHeap.Cache.EvictOldest` | internal/cache/cache.go:53-64 | Eviction refines removal of the model's last key; nothing happens on an empty list. |
| `CacheHeap.Cache.Get` | internal/cache/cache.go:97-122 | Answer and new state agree with the model: a hit moves to the front, an expired key stays stored and misses. |
| `CacheHeap.Cache.Delete` | internal/cache/cache.go:124-147 | Refines the model for stored and absent keys. |
| `CacheHeap.Cache.CleanupExpired` | internal/cache/cache.go:180-210 | Deleting while ranging over the map, in any order, removes exactly the expired keys, keeps the order of the others, and returns their number. |
| `CacheHeap.Cache.Snapshot` | internal/cache/cache.go:164-177 | The copy equals the stored entries. |
| `CacheHeap.CounterIsTotal` | internal/cache/cache.go:150-161 | The byte counter is the sum over the stored entries, in no particular order, of the lengths of key and value and 96. |
| `CacheModel.BytesAreTotal` | internal/cache/cache.go:150-161 | The sum kept along the recency list is that sum. |
| `CacheHeap.Cache.GetKeysInHashRange` | internal/cache/enumeration.go:6-22 | Exactly the stored keys whose hash lies in the cyclic range, each once. |
| `CacheModel.StepValid` | internal/cache/cache.go:40-210 | Every operation keeps the recency order a duplicate-free list of the stored keys, and the capacity bound. |
| `CacheModel.RunBounded` | internal/cache/cache.go:53-87 | In every run at most max(1, maxSize) entries are stored and the list has as many nodes as the map has keys. |
| `CacheRuns.InclusionOverRuns` | internal/cache/cache.go:40-210 | For capacities 1 <= n <= m and every trace, the smaller cache's recency list is a subsequence of the larger's with equal entries, and every hit of the smaller is the same hit of the larger. |
| `CacheRuns.StepIncluded` | internal/cache/cache.go:40-210 | One operation on both caches keeps that relation. |
| `CacheRuns.OrderIsRecency` | internal/lru/lru.go:68-102 | In every run the list is ordered by the time of the last set or hit, computed from the trace alone. |
| `CacheRuns.LastIsOldest` | internal/lru/lru.go:80-89 | The tail of the list is the key whose last set or hit is earliest. |
| `CacheRuns.EvictsLeastRecent` | internal/cache/cache.go:53-87 | Setting a new key evicts only when full, and then exactly the key set or hit before all others. |
| `CacheContents.CacheWithinDictionary` | internal/cache/cache.go:40-210 | In every run and for every capacity, each stored key has the value and deadline that an unbounded dictionary gives it, so every hit answers with the value last set. |
| `CacheContents.CacheIsDictionary` | internal/cache/cache.go:40-210 | While the keys ever set fit the capacity, the cache is that dictionary. |
| `RingModel.VirtualKeyInjective` | internal/cluster/hash.go:54-57 | Different (shard, index) pairs have different virtual node keys, even if shard names contain dashes and digits. |
| `RingModel.SortedUnique` | internal/cluster/hash.go:64-67 | A sorted arrangement is determined by how often each position occurs. |
| `RingModel.ResponsibleIsNearest` | internal/cluster/hash.go:121-132 | First position >= hash, else the first: no position is nearer clockwise. |
| `RingModel.LookupBySet` | internal/cluster/hash.go:110-138 | A lookup depends only on which positions exist and who owns them. |
| `RingModel.AddValid` | internal/cluster/hash.go:50-75 | Adding a shard keeps the positions sorted and each with an entry, collisions included. |
| `RingModel.AddMovesOnlyToNew` | internal/cluster/hash.go:50-75 | After adding a shard every key has its old owner or the new shard, collisions included. |
| `RingModel.RemoveValid` | internal/cluster/hash.go:78-107 | Removing a shard leaves every position with an entry if and only if its positions occur no more often than its virtual nodes. |
| `RingModel.LookupHitsEntry` | internal/cluster/hash.go:200-228 | On such a ring no lookup meets a position without an entry. |
| `RingModel.ReAddThenRemoveDangles` | internal/cluster/hash.go:50-107 | Counterexample: a shard added twice and removed once still answers every lookup, with the empty shard id. |
| `RingModel.AddThenRemove` | internal/cluster/hash.go:50-107 | Removing undoes adding if and only if the new positions collide with none on the ring. |
| `RingModel.RemoveMovesOnlyOwned` | internal/cluster/hash.go:78-107 | Removing a shard changes the owner only of keys it owned. |
| `RingModel.RingAgreement` | internal/cluster/hash.go:50-75 | Without collisions any order and any repetition of the same shards gives every key the same owner. |
| `ClientRing.RingsAgreeIff` | internal/cluster/hash.go:50-138 | Without collisions two rings give every hash the same owner if and only if they were built from the same names. |
| `ClientRing.OwnPosition` | internal/cluster/hash.go:110-138 | Without collisions a shard owns each of its own positions. |
| `ClientRing.ClientAddsNoNode` | pkg/client/cluster_client.go:156-180 | The failing input: from the statuses a health checker reports, the client builds an empty ring, which disagrees with every ring that has a shard. |
| `HashRing.BinarySearch` | internal/cluster/hash.go:121-124 | Binary search returns the first index with a position >= the hash. |
| `HashRing.HashRing.AddShard` | internal/cluster/hash.go:50-75 | The loop and sort refine the model, whose positions are sorted and counted. |
| `HashRing.HashRing.RemoveShard` | internal/cluster/hash.go:78-107 | The loops that delete the first occurrence of each position refine the model. |
| `HashRing.HashRing.GetShard` | internal/cluster/hash.go:200-228 | The lookup refines the model; an empty ring is an error. |
| `HashRing.HashRing.CalculateMigrations` | internal/cluster/migration.go:19-82 | Computes the add plan; fails exactly on an empty ring with virtual nodes, where the source indexes out of range. |
| `HashRing.HashRing.CalculateMigrationsForRemoval` | internal/cluster/migration.go:85-153 | Computes the removal plan; empty on an empty ring. |
| `HashRange.InRangeByGap` | internal/cluster/migration.go:156-163 | A hash is in the cyclic range [start, end) if and only if its successor is in (start, end], or the range is the whole circle. |
| `MigrationPlan.AddPlanExact` | internal/cluster/migration.go:19-82 | Without collisions a hash is in some task if and only if the new ring gives the next hash to the new shard, wrap-around included. |
| `MigrationPlan.SameOwnerOffPositions` | internal/cluster/hash.go:121-135 | A hash that is not a position has the same owner as the next hash. |
| `MigrationPlan.AddPlanOffPositions` | internal/cluster/migration.go:19-82 | A hash that is not a position is in some task if and only if the new shard owns it. |
| `MigrationPlan.AddPlanAtPositions` | internal/cluster/migration.go:55-64 | At the positions themselves the plan is off by one: who owns a position, and when a task covers it. |
| `MigrationPlan.AddPlanWrongSomewhere` | internal/cluster/migration.go:55-64 | The failing input, on every ring: the last new position before an old one is owned by the new shard and in no task, so a plan with virtual nodes is always wrong somewhere. |
| `MigrationPlan.OldOwnerOfRange` | internal/cluster/migration.go:26-64 | On the old ring the whole range of a join task belongs to the position after it. |
| `MigrationPlan.AddTaskSource` | internal/cluster/migration.go:52-64 | Every join task ends at the new position and goes to the new shard; the source it names is the old owner of its keys if and only if the positions before and after the new one belong to the same shard. |
| `MigrationPlan.AddTaskNamesOther` | internal/cluster/migration.go:52-64 | The failing input: between position 10 of one shard and 20 of another, a task for position 15 names the wrong one. |
| `MigrationPlan.RemoveTaskCorrect` | internal/cluster/migration.go:85-153 | Every task names the leaving shard as its source; every hash inside it was owned by that shard and is owned by the task's target once the shard has left. |
| `MigrationPlan.RemovePlanExact` | internal/cluster/migration.go:85-153 | A hash is covered if and only if the position responsible for its successor is leaving and the following position is not. |
| `MigrationPlan.RemovePlanCovers` | internal/cluster/migration.go:85-153 | The plan covers everything the leaving shard owned if and only if no two neighbouring positions are its own. |
| `MigrationPlan.RemovePlanMissesNeighbours` | internal/cluster/migration.go:85-153 | The failing input: with neighbouring positions 10 and 20 of the leaving shard, it owns hash 10 and no task covers the hash before it. |
| `MigrationPlan.RemoveTasksDisjoint` | internal/cluster/migration.go:85-153 | Two tasks never cover the same hash. |
| `Transfer.TransferKeysOnConnection` | internal/cluster/transfer.go:227-279 | Succeeds if and only if every key was delivered and acknowledged, and then the target holds every key; all keys are tried even after a failure, and nothing but these keys is written there. |
| `Transfer.BatchBounds` | internal/cluster/transfer.go:150-184 | Ceiling division cuts the keys into batches without gap or overlap. |
| `Transfer.TransferKeysBatch` | internal/cluster/transfer.go:148-224 | Succeeds if and only if the connection and every key of every batch were acknowledged, and then the target holds every key; otherwise nothing is sent after the first batch with a failure. |
| `Transfer.VerifyTransfer` | internal/cluster/transfer.go:295-359 | Succeeds if and only if the connection and the question for each key were answered, whatever the answers. |
| `Migrator.Migrator.CollectValues` | internal/cluster/migrator.go:91-98 | A key live at the end is sent with its value, one already expired as the empty string. |
| `Migrator.Migrator.DeleteAll` | internal/cluster/migrator.go:121-128 | Exactly the listed keys are gone. |
| `Migrator.Migrator.MoveRange` | internal/cluster/migrator.go:74-128 | One task: only keys of the range leave, each held by the target; a failure changes nothing locally; success empties the range, and comes about if and only if two connections and two answers per key were good. |
| `Migrator.Migrator.ExecuteTasks` | internal/cluster/migrator.go:63-135 | Over all tasks, stopping at the first failure: every key is local as before or held by the target of a task that covers it; nothing is stored elsewhere; all tasks complete if and only if every answer they need, counted from the keys each is the first to cover, was good. |
| `Migrator.Migrator.MigrateToNewNode` | internal/cluster/migrator.go:28-145 | At every return no live key is lost, the new shard is on the ring with its address, nothing is stored but planned keys at the new node, and on success no local key lies in the plan; it succeeds if and only if every answer the plan needs was good. |
| `Migrator.Migrator.MigrateFromLeavingNode` | internal/cluster/migrator.go:148-242 | The same for a departure; the shard leaves the ring if and only if all transfers succeeded, and these succeed if and only if every answer they need was good. |
| `MigrationOutcome.JoinComplete` | internal/cluster/migrator.go:28-145 | After a completed join the node keeps, unchanged, exactly the keys whose next hash the new ring gives elsewhere, and the new node holds all others; for every key, ring positions included. |
| `MigrationOutcome.JoinOffPositions` | internal/cluster/migrator.go:28-145 | So a key that does not hash to a ring position is kept if and only if the new shard does not own it. |
| `MigrationOutcome.LeaveComplete` | internal/cluster/migrator.go:148-242 | After a completed departure the node keeps exactly the keys whose next hash it does not hand over, on every ring, and each other key is held by the node the remaining ring names for it. |
| `MigrationOutcome.LeaveScattered` | internal/cluster/migrator.go:148-242 | Without neighbouring positions of its own, and off the positions, these are exactly the keys it did not own. |
| `Replication.DrainFront` | internal/replication/follower.go:321-426 | Delivering a message and draining the rest equals draining all. |
| `Replication.DrainReaches` | internal/replication/follower.go:188-426 | The number a follower has reached is the greatest of its own, of the writes it received, and of the end of its sync. |
| `Replication.DrainSnapshot` | internal/replication/leader.go:127-175 | Draining a snapshot sets exactly its keys, in whatever order the map was ranged over. |
| `Replication.RunInStep` | internal/replication/leader.go:112-295 | Over every interleaving of writes, deliveries, heartbeats, attaches and disconnects: a registered live follower, once drained, is past its initial sync and agrees with the leader on every key sent to it, and elsewhere still shows what it held at attach. |
| `Replication.Convergence` | internal/replication/follower.go:188-426 | So it has the leader's value for each key the leader holds, and equals the leader if and only if every key it held at attach has since been sent. |
| `Replication.StepNumbered` | internal/replication/leader.go:258-295 | Every step keeps the numbering and only appends to the numbers issued. |
| `Replication.RunNumbered` | internal/replication/leader.go:258-295 | In every run, whoever attaches, exactly the numbers from 1 to the leader's have been issued, each once and in order; no message is ahead of the leader, and on every connection writes are under way in the order of their numbers. |
| `Replication.AheadIffAttachedAhead` | internal/replication/follower.go:188-319 | Over every run, no follower is ever ahead of the leader if and only if none attached with a number beyond the end of its snapshot. |
| `Replication.FollowerOfEarlierLeaderIsAhead` | internal/replication/follower.go:593-618 | The failing input: a follower that kept its number from an earlier leader attaches to a promoted one, which counts from 0. |
| `Replication.TrackedIffCleanDrops` | internal/replication/leader.go:203-256 | Over every run, each open connection stays registered if and only if every disconnect finds, as first entry with its follower id, none, its own, or a dead one. |
| `Replication.DisconnectRemovesOwn` | internal/replication/leader.go:243-256 | A closing connection that is registered removes its own entry if and only if no earlier entry has the same follower id. |
| `Replication.ReconnectedFollowerStranded` | internal/replication/leader.go:228-256 | Counterexample: a run in which a reconnected follower is removed in place of its dead predecessor and, still connected, misses writes. |
| `ReplicationNodes.Leader.Replicate` | internal/replication/leader.go:258-295 | The object, which represents a state of the step system, then represents the state after a write. |
| `ReplicationNodes.Leader.SendSnapshot` | internal/replication/leader.go:127-196 | The queue receives one numbered message per key, each once, in some order of the map, then SYNCEND. |
| `ReplicationNodes.Leader.HandleFollower` | internal/replication/leader.go:112-201 | Sending the snapshot and tracking the connection is an attach step, for any follower state at the other end. |
| `ReplicationNodes.Leader.Broadcast` | internal/replication/leader.go:283-292 | The loop over the slice sends the message once to every tracked connection that is alive and to no other. |
| `ReplicationNodes.Leader.SendHeartbeat` | internal/replication/leader.go:297-339 | One round of heartbeats is a heartbeat step. |
| `ReplicationNodes.Leader.RemoveFollower` | internal/replication/leader.go:243-256 | Swapping the first entry with the id out of the slice refines the removal of the step system. |
| `ReplicationNodes.Leader.Disconnected` | internal/replication/leader.go:203-209 | The end of a connection is a disconnect step. |
| `ReplicationNodes.Follower.Handle` | internal/replication/follower.go:321-426 | One round of the message loop refines Receive. |
| `ReplicationNodes.Follower.Process` | internal/replication/follower.go:188-426 | The message loops refine Drain. |
| `ReplicationProtocol.MessageRoundTrip` | internal/replication/protocol.go:102-288 | Every message the leader encodes is decoded as itself, during and after the initial sync, and the reader stops at the next one. |
| `ReplicationProtocol.StreamIsDrain` | internal/replication/protocol.go:130-302 | Reading the bytes of any list of messages has the effect of receiving the messages. |
| `ReplicationProtocol.WriteBytes` | internal/replication/protocol.go:102-128 | The bytes of a replicated SET and DELETE, element by element, for all contents. |
| `ReplicationProtocol.MarkerBytes` | internal/replication/protocol.go:209-271 | The bytes of a heartbeat and of the end of a sync. |
| `ReplicationProtocol.BadMessageStops` | internal/replication/follower.go:321-426 | A value that is no message ends the loop; what comes after it is never read. |
| `ReplicationProtocol.NumbersAsText` | internal/replication/protocol.go:290-302 | Numbers are accepted as text too. |
| `Decimal.AtoiItoa` | pkg/protocol/encoder.go:31-33 | Printing a 64-bit integer and parsing it back is the identity. |
| `Resp.ParseEncode` | pkg/protocol/parser.go:11-153 | Every encodable frame, nested to any depth, parses back to its value and the parser stops exactly at its end; a null bulk string reads as "". |
| `Resp.ParseEncodeAll` | pkg/protocol/parser.go:123-153 | The same for the items of an array. |
| `Resp.ParseCut` | pkg/protocol/parser.go:11-153 | Every strict prefix of a frame is an error that consumes the whole prefix. |
| `Resp.ParseItemsCut` | pkg/protocol/parser.go:123-153 | The same inside an array. |
| `Resp.LineBytes` | pkg/protocol/encoder.go:15-39 | The bytes of a simple string, an error and the two nulls, by example. |
| `Resp.NumberBytes` | pkg/protocol/encoder.go:31-34 | Of an integer, by example. |
| `Resp.BulkBytes` | pkg/protocol/encoder.go:20-29 | Of a bulk string, by example. |
| `Resp.ArrayBytes` | pkg/protocol/encoder.go:41-60 | Of an array, by example. |
| `RespReader.Reader.ReadLine` | pkg/protocol/parser.go:35-48 | The reader refines the specification and advances past what it read. |
| `RespReader.Reader.ParseBulkString` | pkg/protocol/parser.go:84-120 | The same, with the error cases. |
| `RespReader.Reader.Parse` | pkg/protocol/parser.go:11-32 | The recursive reader refines the specification on every input. |
| `RespReader.Reader.ParseArray` | pkg/protocol/parser.go:123-153 | The same for the item loop. |
| `RespReader.EncodeArray` | pkg/protocol/encoder.go:41-60 | The loop writes the frame of its elements, so the parser reads it back. |
| `AofLog.WholeIsMost` | internal/persistence/aof.go:160-217 | Whole counts the commands that end before a cut: one more would pass it. |
| `AofLog.TornLog` | internal/persistence/aof.go:160-217 | A log cut after any number of bytes yields exactly the commands wholly before the cut, in order. |
| `AofLog.ReadLog` | internal/persistence/aof.go:160-217 | A log followed by the beginning of one more command reads as the log. |
| `AofLog.NegativeLengthPanics` | internal/persistence/aof.go:160-217 | A declared array length below -1 anywhere between whole commands makes the file unreadable. |
| `TornTail.TornParse` | internal/persistence/aof.go:84-106 | For every torn tail and anything written behind it: the first parse eats into what was written, and fails or invents a command with the torn one up to the tear and a foreign value there. |
| `TornTail.ReadAtStartIffWhole` | internal/persistence/aof.go:160-217 | A command appended behind a torn or empty tail is read at its own start if and only if the tail is empty. |
| `TornCases.EveryTear` | pkg/protocol/encoder.go:41-60 | Every torn tail ends in the header, between two words, or in the length, data or trailer of a word. |
| `TornCases.HeadTear` | internal/persistence/aof.go:160-217 | Torn in the header: exactly the next command is lost. |
| `TornCases.LengthTear` | internal/persistence/aof.go:160-217 | Torn in a length: exactly the next command is lost. |
| `TornCases.TrailerTear` | internal/persistence/aof.go:160-217 | Torn in a trailer: exactly the next command is lost. |
| `TornCases.BetweenTear` | internal/persistence/aof.go:160-217 | Torn between words: as many commands as words are missing are lost, and one command is invented, with the words before the tear and empty strings after. |
| `TornCases.BetweenTearShort` | internal/persistence/aof.go:160-217 | With fewer commands behind it all of them are lost. |
| `TornCases.DataTear` | internal/persistence/aof.go:160-217 | Torn in the data of a word: the word is completed from the bytes that follow; what is then lost, resumed in mid-command, or invented. |
| `AofLog.ReadAll` | internal/persistence/aof.go:160-217 | The reading loop, which skips entries that fail to parse, refines the specification on every file. |
| `Durations.SecondsRoundTrip` | internal/server/handler.go:825-854 | Seconds to a 64-bit Duration and back is the identity if and only if they fit. |
| `Persistence.PermReplayAt` | internal/persistence/recovery.go:59-94 | After a replay each key shows the effect of the last operation on it. |
| `Persistence.LineEffects` | internal/persistence/aof.go:186-213 | What any line of a log does when replayed, whoever wrote it: missing or unreadable TTLs count as none, extra words are ignored, a SET or DEL without its words is about the empty key, other commands do nothing. |
| `Persistence.ReplayIdempotent` | internal/persistence/recovery.go:19-84 | Replaying a log on its own result changes nothing. |
| `Persistence.ReplayPerm` | internal/persistence/recovery.go:59-94 | Replay into a cache with room for all keys is, on entries without expiry, replay into a map, whatever the clock. |
| `Persistence.RenderEffects` | internal/persistence/snapshot.go:47-89 | A written snapshot, read back, has one effect per stored key, independent of map order. |
| `Persistence.SnapshotExact` | internal/persistence/snapshot.go:47-89 | A snapshot restores exactly the entries without expiry if and only if no entry has less than a second left; such an entry comes back permanent. |
| `Persistence.RewriteExact` | internal/persistence/aof.go:219-319 | A rewritten log over the older snapshot is exact if and only if no entry is in its last second and every permanent key of that snapshot is still stored and unexpired; every live permanent entry is restored, and any extra comes from the snapshot or such an entry. |
| `Persistence.FadingComesBack` | internal/persistence/snapshot.go:47-89 | The failing input of the first condition: an entry in its last second is restored for good. |
| `Persistence.RewriteRevives` | internal/persistence/aof.go:219-319 | The failing input of the second: an empty cache rewritten over a snapshot with a key restores the key. |
| `PersistenceRuns.StepKeeps` | internal/persistence/snapshot.go:20-166 | Every write, delete, read, cleanup, snapshot (stopped before the truncation or not; before the rename the files are untouched), rewrite, and crash inside an append with restart keeps the files readable and every entry without expiry in them. |
| `PersistenceRuns.StepExact` | internal/persistence/snapshot.go:20-166 | Under the exact conditions of SnapshotExact, RewriteExact and ChangeExact, the files know no other entry. |
| `PersistenceRuns.ChangeExact` | internal/server/handler.go:825-866 | A write or removal keeps the files exact if and only if its TTL, wrapped to a 64-bit Duration, is not a positive fraction of a second; every other TTL, overflowing or negative, keeps them exact. |
| `PersistenceRuns.VanishingTtl` | internal/server/handler.go:825-866 | The failing input: 20211507185753197 seconds wrap to 512 nanoseconds. |
| `PersistenceRuns.RecoveryIsLogged` | internal/persistence/recovery.go:12-110 | From any reachable pair of files, torn bytes included, recovery gives exactly the entries without expiry that the files know. |
| `PersistenceRuns.PermanentSurvives` | internal/persistence/recovery.go:12-110 | After every run of such steps, with any TTLs, in which torn bytes are removed by a truncating snapshot or a rewrite before the next append, cut off anywhere inside an append, recovery gives back every entry without expiry. |
| `PersistenceRuns.CrashSafety` | internal/persistence/recovery.go:12-110 | And exactly those, if snapshots, rewrites and writes were made when they are exact. |
| `LiveRuns.ReplayAt` | internal/persistence/recovery.go:59-94 | After a replay without eviction each key holds the value of the last operation on it, with a deadline counted from the moment of the replay, or nothing after a DEL. |
| `LiveRuns.RecoveryIsKnown` | internal/persistence/recovery.go:12-110 | From any reachable pair of files recovery gives exactly the values the files know, of entries with and without expiry. |
| `LiveRuns.LiveSurvives` | internal/persistence/recovery.go:12-110 | After every run of the steps above, cut off anywhere inside an append: every stored entry, with or without expiry, is recovered with its value, unless its deadline lies before the last snapshot or rewrite. |
| `TornLoss.AppendBehindTearIsLost` | internal/persistence/aof.go:84-106 | After an append behind torn bytes of a command without stars, recovery shows for any key without a star that is no word of the torn command only what the files knew before. |
| `TornLoss.WriteBehindTearIsLost` | internal/persistence/aof.go:84-106 | A write of any nonempty value behind torn bytes, stars included, is not recovered unless the files knew it before, for a key without a star that is no word of the torn command. |
| `TornLoss.RecoverableIffWhole` | internal/persistence/aof.go:53-106 | In every reachable state, a write of a new nonempty key (without a star and no word of the torn command; the value is any) is recovered if and only if the log has no torn bytes. |
| `TornLoss.RepeatedWriteIsRead` | internal/persistence/aof.go:84-106 | Why words of the torn command are excluded: a write torn before its last word and then repeated is read. |
| `TornLoss.StarKeyIsRead` | internal/persistence/aof.go:84-106 | Why stars in the key are excluded: a torn key completed from the header of the next append is that append's key. |
| `TornLoss.WriteAfterCrashIsLost` | internal/persistence/aof.go:53-106 | The failing run, for every torn append: crash in it, restart, serve a write; the cache holds the write and recovery does not give it back. |
| `Aof.AOF.WriteTemp` | internal/persistence/snapshot.go:47-89 | The writing loop renders the stored entries in some order of the map. |
| `Aof.AOF.CreateSnapshot` | internal/persistence/snapshot.go:20-166 | The two files after each crash point. |
| `Aof.AOF.RewriteAOF` | internal/persistence/aof.go:219-319 | The log is replaced, the snapshot is not. |
| `Aof.AOF.Apply` | internal/persistence/recovery.go:59-94 | The loop over operations refines the replay of the cache model. |
| `Aof.AOF.RecoverAOF` | internal/persistence/recovery.go:12-110 | Snapshot, then log: refines the recovery that the run theorems are about. |
| `Commands.ExecIsSequential` | internal/server/handler.go:371-525 | For every queue of well-formed commands, on a follower one without writes, EXEC's cache, log, messages and replies equal those of serving the commands one by one. |
| `Commands.ExecRefinesServe` | internal/server/handler.go:371-525 | The same for the encoded reply. |
| `Answers.ServeReads` | internal/server/handler.go:810-938 | The bytes answering a command sent directly are read by the client's parser, whatever follows them, as: the value of a dictionary of the commands for a GET of a stored and unexpired key, null for any other GET, OK, 1, PONG, the number of stored keys, or the reason of the refusal. |
| `Answers.ServeRefuses` | internal/server/handler.go:810-938 | A command that is refused, by role, size, TTL or name, leaves the node alone and is answered with that reason. |
| `Answers.ExecuteReads` | internal/server/handler.go:551-653 | The same for a command that EXEC runs. |
| `Answers.ServedAnswers` | internal/server/handler.go:810-938 | After any commands and for any capacity the reply to one more is read as their dictionary says; and while the keys ever set fit the capacity, the stored keys are those of the dictionary. |
| `Answers.SetThenGet` | internal/server/handler.go:810-895 | A value set with a TTL in seconds is read back until that many billions of nanoseconds later and no longer; without a positive TTL it is always. |
| `Answers.UnknownAnswer` | internal/server/handler.go:286-290 | The reply to an unknown command is read as one error if and only if the command's name holds no line break. |
| `ServerAnswers.ExecAnswers` | internal/server/handler.go:371-525 | EXEC's reply is read as the list of what the client would read for each queued command in its turn. |
| `ServerAnswers.TransactionAnswers` | internal/server/handler.go:295-525 | The same on a connection, for MULTI, any accepted commands and EXEC. |
| `ServerAnswers.RunHeard` | internal/server/handler.go:63-292 | Over every interleaving on any number of connections, transactions included, the cache holds nothing but what the writes left in the order in which they took effect. |
| `ServerAnswers.AnyConnectionAnswers` | internal/server/handler.go:63-292 | So a data command on any idle connection is answered by what all connections did before. |
| `Commands.FollowerExecWrites` | internal/server/handler.go:371-525 | On a follower serving any queue logs nothing, and EXEC on it logs nothing if and only if it holds no SET or DEL. |
| `Commands.QueueLogsAlike` | internal/server/handler.go:435-512 | For every queue of commands of legal size on any node, EXEC and serving one by one write the same log if and only if every write in it is well-formed (its TTL parses, has the right qualifier and fits a Duration) and the node is no follower. |
| `Commands.RejectedSetIsLogged` | internal/server/handler.go:435-512 | The failing input: a SET whose TTL is no number changes nothing when sent directly; EXEC refuses it as well and still logs it, without a TTL. |
| `Commands.ExecOne` | internal/server/handler.go:371-525 | A transaction of one command: its own effect, its own record, and an array of one reply. |
| `Durability.ServedIsRun` | internal/server/handler.go:810-938 | Serving any commands, refused ones included, changes cache and log as the runs of the persistence model do. |
| `Durability.ServedSurvives` | internal/server/handler.go:810-938 | Whatever commands were served, and wherever inside the next append the node stopped, recovery from its log restores every entry without expiry, and no other unless a served TTL vanished in the log. |
| `Durability.ServedValuesSurvive` | internal/server/handler.go:810-938 | And every entry that expires comes back too, with its value. |
| `Durability.SentMirrorsCache` | internal/server/handler.go:856-866 | The writes handed to replication, whatever their TTLs, applied in order to an empty store, give exactly the values in the cache. |
| `PubSub.PubSub.Subscribe` | internal/pubsub/pubsub.go:52-106 | Adds one subscription and keeps the three indexes mutual inverses without empty sets, with every indexed channel open; other subscribers are untouched. |
| `PubSub.PubSub.Unsubscribe` | internal/pubsub/pubsub.go:179-226 | Removes one subscription, or reports an error exactly when there is none; the last one closes both channels, which were open. |
| `PubSub.PubSub.RemoveConnection` | internal/pubsub/pubsub.go:229-280 | Removes all subscriptions of the connection from all indexes and closes its channels once. |
| `PubSub.PubSub.Publish` | internal/pubsub/pubsub.go:141-176 | The message is queued once at exactly the subscribers of the channel with fewer than 100 messages waiting, and the count is their number. |
| `PubSub.Deliver` | internal/pubsub/pubsub.go:159-173 | The delivery loop, in any order of the map. |
| `PubSub.MirroredAdd` | internal/pubsub/pubsub.go:90-97 | Adding a subscription to all indexes keeps them mutual inverses. |
| `PubSub.MirroredDrop` | internal/pubsub/pubsub.go:201-217 | Dropping one does too, with the owner when it was the last. |
| `PubSub.MirroredRemove` | internal/pubsub/pubsub.go:253-274 | Dropping a whole connection does too. |
| `Connections.SubscribedEach` | internal/server/handler.go:663-695 | SUBSCRIBE adds exactly the channels named before the first argument that is not a string. |
| `Connections.UnsubscribedEach` | internal/server/handler.go:736-765 | UNSUBSCRIBE removes exactly those. |
| `Connections.SubscribeConsistent` | internal/server/handler.go:656-699 | Subscriber mode still means having subscriptions if and only if the connection had some, all arguments are strings, or the first is not one. |
| `Connections.UnsubscribeConsistent` | internal/server/handler.go:702-771 | The same holds if and only if the connection had none, all arguments are strings, or some subscribed channel is not named. |
| `Connections.SubscribeStopsHalfway` | internal/server/handler.go:656-699 | The failing input: SUBSCRIBE with a channel and then a non-string leaves a subscription outside subscriber mode. |
| `Connections.UnsubscribeStopsHalfway` | internal/server/handler.go:702-771 | The failing input: UNSUBSCRIBE likewise leaves subscriber mode without a subscription. |
| `Connections.RunInv` | internal/server/handler.go:63-292 | Over every interleaving of string commands on any number of connections: subscriber mode is having subscriptions, it excludes a transaction, and queued commands passed the checks. |
| `Connections.StopsAt` | internal/server/handler.go:63-292 | A run comes to a halt at exactly one kind of event: an EXEC that is run and has DBSIZE in its queue. |
| `Connections.OpenAndClose` | internal/server/handler.go:63-84 | A connection that opens starts idle and unsubscribed, one that closes leaves nothing behind, and neither touches another. |
| `Connections.HandleInv` | internal/server/handler.go:107-291 | One command on one connection keeps this. |
| `Connections.QueueingRun` | internal/server/handler.go:129-150 | While queueing, the node is untouched; the queue is the list of allowed commands unless one had a wrong argument count; that one and disallowed commands are answered with an error, all others with QUEUED. |
| `Connections.TransactionRun` | internal/server/handler.go:295-525 | MULTI, any commands and EXEC: if a queued command was refused the whole server is as before, otherwise exactly the allowed ones are run. |
| `Connections.QueuedIff` | internal/server/handler.go:129-348 | Inside a transaction a SET, GET or DEL is queued unless serving it directly gives the argument-count error; DBSIZE is with no and PING with at most one argument; connection and cluster commands are refused, everything else is queued; a refusal leaves node and queue alone. |
| `Connections.LongPingAborts` | internal/server/handler.go:324-329 | A transaction of well-formed commands is aborted if and only if it holds a PING with more than one argument, and then changes nothing. |
| `Connections.DiscardRun` | internal/server/handler.go:528-548 | MULTI, any commands and DISCARD leave the whole server as it was and answer OK, whether or not a command was refused. |
| `Connections.StrayEnd` | internal/server/handler.go:371-548 | EXEC and DISCARD outside a transaction change nothing and are errors. |
| `Connections.SubscriberOnly` | internal/server/handler.go:107-127 | In subscriber mode every command but the six allowed ones changes nothing and is an error. |
| `Connections.HandledApart` | internal/server/handler.go:152-181 | On an idle connection PUBLISH and CLUSTER are answered before routing and leave node and session alone. |
| `Connections.TransactionLogsAlike` | internal/server/handler.go:129-205 | For every list that a transaction queues: MULTI, the list and EXEC write the same log as sending it directly if and only if every SET and DEL in it is well-formed, not redirected and not on a follower. |
| `Connections.RedirectedWriteRuns` | internal/server/handler.go:129-205 | The first failing guard: a write that is redirected when sent directly is executed and logged here inside a transaction, because queueing comes before routing. |
| `Connections.FollowerWriteRuns` | internal/server/handler.go:371-525 | The second: a write that a follower refuses goes through in a transaction. |
| `Connections.TransactionIsDirect` | internal/server/handler.go:63-525 | For well-formed commands, PING with at most one argument, the two logs agree if and only if no write among them is redirected or refused by a follower; and if none of the commands is, the whole server is left the same and EXEC's reply is the list of their replies. |
| `Handler.ConnectionState.QueueCommand` | internal/server/handler.go:295-348 | The handler refines the session model. |
| `Handler.ConnectionState.HandleMulti` | internal/server/handler.go:351-368 | The same for MULTI. |
| `Handler.ConnectionState.HandleDiscard` | internal/server/handler.go:528-548 | The same for DISCARD. |
| `Handler.ConnectionState.HandleExec` | internal/server/handler.go:371-525 | The three loops refine Exec; an aborted or stray EXEC leaves the node alone. |
| `Handler.Backend.ExecuteQueue` | internal/server/handler.go:404-433 | The execution loop. |
| `Handler.Backend.RecordQueue` | internal/server/handler.go:435-512 | The replication and logging loop. |
| `Handler.JoinReplies` | internal/server/handler.go:514-518 | The reply array is a header with the number of results and the results in order. |
| `Handler.ConnectionState.HandleSubscribe` | internal/server/handler.go:656-699 | The loop over the registry refines the session model and keeps the registry's indexes. |
| `Handler.ConnectionState.HandleUnsubscribe` | internal/server/handler.go:702-771 | The same for UNSUBSCRIBE with and without arguments. |
| `Routing.GetShardForNode` | internal/config/config.go:277-291 | The nested search returns the first shard with the node as leader or follower. |
| `Routing.ShouldForwardRequest` | internal/server/state.go:37-113 | The decision, with its search loops, refines Decide. |
| `Routing.OneHop` | internal/server/state.go:37-113 | Among nodes sharing a view the target of a redirect serves the request if and only if the configuration does not place it in another shard; otherwise it redirects to itself. |
| `Routing.SelfRedirect` | internal/server/state.go:37-113 | The failing input: a leader that an earlier shard lists as follower redirects to itself. |
| `Routing.ServedByOwner` | internal/server/state.go:37-113 | With each node in one shard: if the ring's owner of the key is a configured shard, its leader alone keeps a write, its nodes alone keep a read, and every redirect carries that leader's name and address and ends there after one hop; otherwise every node keeps the request. |
| `Routing.RedirectIs` | internal/server/state.go:72-113 | Every redirect, on any configuration, names the leader of the owning shard with the address of the first configured node of that name, or none if there is no such node. |
| `Routing.AddressIsFirst` | internal/server/state.go:82-107 | The search gives host, colon and port of the first node with the identifier. |
| `Routing.KeptByAll` | internal/server/state.go:72-99 | A key whose owner has no member list is handled wherever it arrives. |
| `Routing.OnlyLeaderKeepsIff` | internal/server/state.go:37-113 | Nobody but the owning shard's leader keeps a write of a key if and only if the ring's owner of the key is a configured shard. |
| `JoinRouting.MovedKeyUnreachable` | internal/cluster/migrator.go:28-145 | The failing input, on every ring: after a completed join of a node without member list, a moved key off the ring positions is handled locally by every node asked for it, although the node it left no longer has it and the new node does. |
| `Redirects.DataCommand` | internal/server/handler.go:183-215 | On a connection: a SET or DEL runs on the leader of the owning shard and nowhere else, a GET on every node of it; any other node is left as it was and answers MOVED with the leader's name and address. |
| `Redirects.RedirectRoundTrip` | pkg/protocol/encoder.go:62-115 | The client understands a redirect written by EncodeRedirect if and only if its host is not empty and has no colon. |
| `Redirects.RawRedirect` | pkg/protocol/encoder.go:62-115 | The same for the bytes with dash and line end, if and only if the host does not itself begin with the word MOVED and a blank. |
| `Redirects.ServerRedirectMisread` | internal/server/handler.go:199 | It never understands the redirects the server sends: with a colon in name or host it fails, otherwise it takes the name for a part of the host. |
| `Redirects.NoAddressMisread` | internal/server/handler.go:199 | Nor a redirect without an address. |
| `Redirects.ValueReturned` | pkg/client/client.go:48-192 | The Go client returns a stored value to its caller if and only if it does not begin like a redirect, and a missing key as the empty string. |
| `Health.NodeHealth.CheckNode` | internal/cluster/health.go:169-238 | The update in place refines Check. |
| `Health.CountsTrailingFailures` | internal/cluster/health.go:169-238 | The counter is the length of the longest run of failures at the end of the history. |
| `Health.Detection` | internal/cluster/health.go:169-238 | For every threshold and history: dead if and only if the last max(1, threshold) pings failed, alive if and only if the last did not, and failure and recovery callbacks alternate, starting with failure. |
| `PyClient.EncodeCommand` | pkg/client/python/gocache/client.py:42-58 | The bytes are the frame that the server's parser reads back to its end. |
| `PyClient.ToIntItoa` | pkg/client/python/gocache/client.py:86-89 | Python's int() reads back every printed integer. |
| `PyClient.ToIntSpaced` | pkg/client/python/gocache/client.py:86-89 | White space around a number is ignored. |
| `PyClient.ReadLineOf` | pkg/client/python/gocache/client.py:126-135 | A line is read back if and only if it holds no line break. |
| `PyClient.ParseStable` | pkg/client/python/gocache/client.py:67-135 | A parse that did not run out of bytes has the same outcome on every extension of its input. |
| `PyClient.ReplyRoundTrip` | pkg/client/python/gocache/client.py:67-135 | The client reads back every reply the server can encode, nulls included, and stops at its end. |
| `PyClient.ReplyPrefixIncomplete` | pkg/client/python/gocache/client.py:67-135 | Every strict prefix of a reply asks for more data. |
| `PyClient.CutReply` | pkg/client/python/gocache/client.py:222-247 | A stream that ends inside a reply is a lost connection. |
| `PyClient.BadReplies` | pkg/client/python/gocache/client.py:67-124 | A number, length or count that int() rejects, and a first byte that is no type, are bad replies. |
| `PyClient.NegativeLengths` | pkg/client/python/gocache/client.py:91-121 | Length and count -1 are null, other negative counts an empty list; other negative lengths move the position backwards. |
| `PyClient.BadItem` | pkg/client/python/gocache/client.py:107-121 | A list fails as its first item does. |
| `PyClient.ParseAt` | pkg/client/python/gocache/client.py:67-124 | The position-passing parser refines the parser on the remaining bytes. |
| `PyClient.GoCacheClient.FillBufferUntilComplete` | pkg/client/python/gocache/client.py:222-247 | Reading loses no byte received before the connection closes and stops only with a whole reply or at the end of an incomplete stream. |
| `PyClient.GoCacheClient.ReadResponse` | pkg/client/python/gocache/client.py:203-220 | The answer depends on the bytes of the stream only, not on the chunks. |
| `PyClient.GoCacheClient.ReadReplies` | pkg/client/python/gocache/client.py:203-247 | For every cut of the stream into chunks, successive reads give the replies that were encoded, errors as exceptions. |

## Left out

- Sockets, dialing, deadlines, fsync policies, goroutine scheduling, metrics, logging, configuration loading and the Go client's connection handling.
- SHA-256: the hash is any function.
- Leader election and promotion of followers: the code has no term or vote from which agreement could follow.
- Expiry times across snapshot, rewrite, synchronisation and migration: seconds are truncated, and migration sends values without a TTL.
- White space and digits outside ASCII in Python's int().
- Rounding of floating-point seconds, and wrap-around of the 64-bit memory counter.
- Declared bulk and array lengths below -1, and allocation failure for huge declared lengths.
- Commands whose elements are not strings, except as channel arguments; an empty command array panics in the source.
- The text of SUBSCRIBE, UNSUBSCRIBE, PUBLISH and CLUSTER replies, pattern subscriptions, and the goroutine that writes queued messages to a subscriber.
- TransferKeys and TransferKeysWithRetry, which the migrator does not call, and GetKeysWithValues and CountKeysInRange: they repeat the loops above.
- SetInternal, GetInternal and DeleteInternal: the same bodies without the lock.
- Sending follower heartbeats and monitoring by timeouts; heartbeats appear as messages only.
- Transfer.VerifyTransfer: promises nothing about the stored keys, because the parser reads a null bulk string as "" and so the check for a missing key never fires.
- TornLoss.RecoverableIffWhole: does not decide keys with a star or repeated from the torn command, whose recovery depends on the torn bytes.
- PersistenceRuns.CrashSafety: says nothing about entries with an expiry, which can come back after they were swept; LiveRuns.LiveSurvives covers those still live.
- LiveRuns.LiveSurvives: does not bound the deadline of a recovered entry, because its remaining seconds are counted anew from the recovery.
- Replication.Convergence: does not cover expiry or eviction on either side, because neither is replicated.
- Connections.RunInv: the run stops at an EXEC with DBSIZE in its queue, because that waits for a lock EXEC itself holds.
