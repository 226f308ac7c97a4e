# Memory service: verified model

A Dafny model of the algorithms and protocols inside the memory service, with proofs about whole runs. Check it with
`dafny verify dfyconfig.toml`.

What is modelled, by file:

| files | what they model |
|---|---|
| `GraphModel`, `TextOrder`, `GraphRepository`, `GraphLaws`, `GraphBackup` | the in-memory knowledge graph: breadth-first neighbours, depth-first simple paths, what both mean edge by edge, subgraphs, counts, logical backup and restore |
| `Text`, `Clustering` | Jaccard similarity; the union-find with path halving that counts similarity clusters |
| `RefreshStore`, `TokenHistory`, `AuthProtocol`, `AuthService`, `RedisRefreshStore`, `RedisParity` | refresh-token rotation: the two stores, verdicts from the history of calls, the service's steps in every interleaving over either, and both stores run side by side |
| `Sse`, `SseFrames`, `SseExactness`, `EventSource` | printing server-sent events, reading them back from arbitrary chunks, what the reader makes of any block, and how the standard's reader compares |
| `Sorting`, `Greedy`, `Tokens`, `Context`, `ContextProperties`, `ContextPackage` | the context pipeline: budgeted selection, duplicate consolidation, compression, what holds across the stages, and what the package holds of the candidates |
| `LeaseLock`, `SingleOwner` | lease locks in memory and in Redis, and the critical sections they guard |
| `Window`, `RateLimit` | fixed windows; the in-memory and the Redis rate limiter |
| `Cron`, `CronRules`, `Scheduler`, `MalformedCron` | cron matching against the sets of values that fields denote, and against the rules of the comment and of the standard; rounds of the scheduler over a moving clock |
| `Rounding`, `Analytics`, `AnalyticsCache`, `AnalyticsLaws`, `AnalyticsWrites` | the analytics aggregate, the cache in front of it, its invalidation, and which operations on memories it misses |
| `Ids`, `MemoryStatus`, `Lifecycle`, `MemoryUseCases`, `MemoryEdits`, `VersionHistory` | scores, states and operations of a memory, the use cases, what they write, and the version history they leave |

Objects that the service updates in place are classes, each method proved against a function of the state before it.
Protocols whose steps interleave are step relations over worlds; their theorems quantify over all runs. Time is a
real number of seconds that does not run backwards. Tokens, ids and families are compared and never computed with;
a newly generated one differs from all earlier ones. Scores and similarities are reals.

## Where the code and its documentation differ

The model follows the code. These differences came up:

- `refresh_store_redis.py` says it behaves as the in-memory store does. It does so family by family, for tokens saved
  at least a second and at most the family lifetime before they expire, their keys set without delay, none of them
  after the family was revoked, as long as no logout and no replay presents a token of the family whose key has lapsed
  (`SameVerdict`). Each condition is needed with all others met: `ShortSaveSlipsThrough`, `LongSaveSlipsThrough`,
  `SlowSaveSlipsThrough`, `LateSaveSlipsThrough`, `LapsedLogoutSlipsThrough`, `LapsedReplaySlipsThrough`.
  `SameVerdictExactly` and `SameLogoutExactly` say for all runs when two verdicts, or two logouts, agree.
- `compressor.py` announces pruning when memories are over budget. Behind the selection stage it never prunes
  (`CompressionRemovesNothing`). The stated budget holds iff it is not negative: an empty package has total 0.
- `cache_invalidation_handler.py` calls its events every mutation that can change an aggregate. Restore, supersede
  and forget are not among them (`QuietOperations`) and change aggregates too, except forgetting a superseded memory
  (`QuietChanges`), so the next read can miss them (`HarmlessExactly`, `SeenQuietIsMissed`).
- `cron.py` says in a comment that the day fields combine by OR when either is restricted. The code takes OR when
  neither is literally `*`, so that `*/2` counts as restricted, and AND otherwise (`CronDenotes`). When the two agree
  is in `CommentHoldsExactly`; `0 0 * * 1` is a case where they do not (`CommentFails`).
- The crontab INPUT FILES section of IEEE Std 1003.1 takes month and day of the month together as one side of the OR.
  When the code agrees with that is in `StandardHoldsExactly`; `0 0 1 1 1` is a case where it does not
  (`StandardFails`).
- The two locks agree on owners only for lifetimes of at least a second (`SameLeaseIffLongEnough`), and only the
  in-memory lock reports success for releasing a lapsed lease (`SameLeaseStep`).
- The interval announced with a refusal is rounded down, so a client that waits exactly that long is usually still in
  the same window (`RetryAfterIsEnough`).
- `in_process_scheduler.py` promises to isolate a failing job from the rest. A raised exception is isolated; a malformed
  cron expression or a cancelled job ends the round for every job registered later (`RoundCompletes`). How often those
  still run in that minute is in `FiresExactlyOnce`; an empty expression blocks them for good
  (`EmptyExpressionBlocks`).
- `memory_version.py` gives a snapshot the number of the version it was taken of. `memory_intelligence_service.py`
  changes the metadata of a reinforced memory without a new version, so a snapshot holds the content of its version
  (`SnapshotHolds`) but the metadata of the moment of the edit (`SnapshotMetadata`). That is the metadata the version
  began with unless a reinforcement left evidence in between (`SnapshotHoldsMetadata`, `EvidenceSlipsIn`).

## Model

| member | source | states |
|---|---|---|
| `GraphRepository.Repository.FindPaths` | backend/app/infrastructure/graph/in_memory_graph_repository.py:99-119 | From a recorded source the result lists every simple undirected path of 1 to `maxDepth` edges to the target, each edge sequence once and nothing else, with the records of the ids on the way, in depth-first order; from an unrecorded source, or when source and target are equal, it is empty. Terminates on every graph |
| `GraphLaws.FoundInVisitingOrder` | backend/app/infrastructure/graph/in_memory_graph_repository.py:103-117 | Two consecutive ids on a found path are the two ends of the edge between them, and its node records are those of the recorded ids on the way, at strictly increasing positions, none left out |
| `GraphLaws.FoundComplete` | backend/app/infrastructure/graph/in_memory_graph_repository.py:103-117 | When every id on the way is recorded, record k of a found path is that of the kth id |
| `GraphRepository.Repository.Dfs` | backend/app/infrastructure/graph/in_memory_graph_repository.py:104-115 | One call lists exactly the answers that continue the path taken so far, in depth-first order; parallel edges of different types give different paths |
| `GraphRepository.Repository.TakeEdges` | backend/app/infrastructure/graph/in_memory_graph_repository.py:111-115 | The loop lists exactly the answers that go on with an edge at the last id, in the order of the edge dictionary |
| `GraphRepository.BranchesInOrder` | backend/app/infrastructure/graph/in_memory_graph_repository.py:111-115 | Answers over a later edge come after all answers over the earlier ones, however long the shared way |
| `GraphRepository.SieveInOrder` | backend/app/infrastructure/graph/in_memory_graph_repository.py:157-165 | Adjacent edges come in the order of the dictionary |
| `GraphRepository.OnlyItself` | backend/app/infrastructure/graph/in_memory_graph_repository.py:107-110 | Stopping at the target loses nothing: a simple path that has reached it has no other continuation that is an answer |
| `GraphRepository.MoreVia` | backend/app/infrastructure/graph/in_memory_graph_repository.py:111-115 | Listing the continuations edge by edge neither misses nor repeats one |
| `GraphRepository.AllVia` | backend/app/infrastructure/graph/in_memory_graph_repository.py:111-115 | Every answer that continues the path goes on with one of the adjacent edges |
| `GraphRepository.NothingVia` | backend/app/infrastructure/graph/in_memory_graph_repository.py:113-114 | Skipping an edge back to a visited id loses no simple path |
| `GraphModel.TraceStep` | backend/app/infrastructure/graph/in_memory_graph_repository.py:111-115 | The ids visited along a path: each edge leads from one to the next, whichever way it points |
| `GraphLaws.StepsAreEnds` | backend/app/infrastructure/graph/in_memory_graph_repository.py:111-115 | On a simple path consecutive ids are the source and target of the edge, in either order |
| `GraphModel.SimplePathLeavesSource` | backend/app/infrastructure/graph/in_memory_graph_repository.py:107-115 | No simple path returns to its source, so there is none from an id to itself |
| `GraphRepository.Repository.FindNeighbors` | backend/app/infrastructure/graph/in_memory_graph_repository.py:76-97 | Returns exactly the recorded nodes other than the root at undirected distance 1 to `depth` over allowed edge types, once each, in non-decreasing distance; distance is defined by shortest walks, which may pass through ids without a record |
| `GraphLaws.LinkedByEnds` | backend/app/infrastructure/graph/in_memory_graph_repository.py:87-91 | Two ids are one step apart iff they are the two ends of an edge of an allowed type, whichever is its source |
| `GraphLaws.TypesAskedFor` | backend/app/infrastructure/graph/in_memory_graph_repository.py:78-79 | No types, or an empty list of them, means all |
| `GraphLaws.DirectNeighbors` | backend/app/infrastructure/graph/in_memory_graph_repository.py:76-97 | For depth 1 the answer holds exactly the recorded ids at the other ends of allowed edges, incoming ones included |
| `GraphLaws.EndsAreNeighbors` | backend/app/infrastructure/graph/in_memory_graph_repository.py:76-97 | At any depth from 1 on, each recorded end of an allowed edge is in the answer for the other end |
| `GraphLaws.DistanceSymmetric` | backend/app/infrastructure/graph/in_memory_graph_repository.py:76-97 | Distances are the same in both directions |
| `GraphLaws.NeighborsMutual` | backend/app/infrastructure/graph/in_memory_graph_repository.py:76-97 | Of two recorded ids one is found around the other iff the other is found around it |
| `GraphRepository.Repository.VisitAround` | backend/app/infrastructure/graph/in_memory_graph_repository.py:88-96 | Expanding one id keeps the search invariant: what is visited is mapped to its distance, the queue spans at most two layers, and every visited id is queued, at the limit or fully explored |
| `GraphRepository.SearchIsExact` | backend/app/infrastructure/graph/in_memory_graph_repository.py:76-97 | When the queue is empty the invariant makes the result the answer in terms of walks |
| `GraphRepository.CoverStep` | backend/app/infrastructure/graph/in_memory_graph_repository.py:84-96 | Once every id up to a layer is explored the next layer is visited too |
| `GraphModel.BallIsWalks` | backend/app/infrastructure/graph/in_memory_graph_repository.py:80-97 | An id is in the ball of `k` layers iff a walk of at most `k` steps ends there |
| `GraphModel.LayerIsDistance` | backend/app/infrastructure/graph/in_memory_graph_repository.py:80-97 | First seen in layer `d` iff the shortest walk takes `d` steps |
| `GraphRepository.Repository.Adjacent` | backend/app/infrastructure/graph/in_memory_graph_repository.py:157-165 | The allowed edges at an id, both directions, in dictionary order |
| `GraphRepository.Repository.UpsertNode` | backend/app/infrastructure/graph/in_memory_graph_repository.py:30-40 | The record under the id is replaced; edges are untouched |
| `GraphRepository.Repository.CreateEdge` | backend/app/infrastructure/graph/in_memory_graph_repository.py:54-56 | At most one edge per (source, target, type): a new one replaces its predecessor in place, all others stay |
| `GraphModel.PutMembers` | backend/app/infrastructure/graph/in_memory_graph_repository.py:54-56 | Assigning to the edge dictionary keeps keys distinct and replaces exactly the edge of the same key |
| `GraphLaws.SameKeyIs` | backend/app/infrastructure/graph/in_memory_graph_repository.py:54-56 | Two edges have the same key iff they agree in source, target and type |
| `GraphRepository.Repository.DeleteNode` | backend/app/infrastructure/graph/in_memory_graph_repository.py:42-48 | Removes the record and exactly the edges at the id, recorded or not, keeping the order of the rest |
| `GraphRepository.Repository.DeleteEdge` | backend/app/infrastructure/graph/in_memory_graph_repository.py:58-61 | Removes the edge of that key and no other |
| `GraphRepository.Repository.GetSubgraph` | backend/app/infrastructure/graph/in_memory_graph_repository.py:122-132 | Exactly the owner's nodes, or with a limit those of the first ids in text order, once each, and exactly the edges with both ends among them |
| `GraphLaws.OverviewOfUser` | backend/app/infrastructure/graph/in_memory_graph_repository.py:122-155 | Without a limit the nodes are those whose `user_id` property names the user, the edges those between two of them |
| `TextOrder.Cut` | backend/app/infrastructure/graph/in_memory_graph_repository.py:124-127 | As many of the ids as the slice keeps, negative limits included, and none left out comes before one taken |
| `TextOrder.CutSizeIs` | backend/app/infrastructure/graph/in_memory_graph_repository.py:124-127 | The number kept is that of the places before the limit, counted from the end if it is negative |
| `TextOrder.CutUnique` | backend/app/infrastructure/graph/in_memory_graph_repository.py:124-127 | The limit determines which ids are kept, so a limited overview is stable |
| `TextOrder.AtMostIs` | backend/app/infrastructure/graph/in_memory_graph_repository.py:124-127 | Ids are ordered by the first character in which they differ, a prefix first |
| `GraphRepository.Repository.CountNodes` | backend/app/infrastructure/graph/in_memory_graph_repository.py:135-136 | Agrees with the length of every overview of the owner |
| `GraphRepository.Repository.CountEdges` | backend/app/infrastructure/graph/in_memory_graph_repository.py:138-144 | Agrees with the length of every overview of the owner |
| `GraphBackup.Backup.Export` | backend/app/infrastructure/backup/graph_backup.py:30-57 | The snapshot holds exactly the exported owners' nodes and the edges inside one owner's subgraph, without repetition |
| `GraphBackup.Backup.Restore` | backend/app/infrastructure/backup/graph_backup.py:59-82 | Refuses another version without touching the graph, else upserts every node and edge and reports how many |
| `GraphBackup.RoundTrip` | backend/app/infrastructure/backup/graph_backup.py:30-82 | Restored into an empty graph, an export gives every exported owner the same subgraph as before |
| `GraphBackup.RestoreIsIdempotent` | backend/app/infrastructure/backup/graph_backup.py:59-82 | Restoring an export twice equals restoring it once, whatever the graph held before |
| `GraphBackup.PutAllMembers` | backend/app/infrastructure/backup/graph_backup.py:72-81 | After restoring edges: the restored ones and the earlier ones of other keys, nothing else |
| `Text.JaccardSymmetric` | backend/app/application/services/context/_text.py:6-11 | Similarity does not depend on the order of the two sets |
| `Text.JaccardIsShare` | backend/app/application/services/context/_text.py:6-11 | Similarity times all tokens of the two sets is the number of common tokens; two empty sets have similarity 0 |
| `Text.JaccardOfParts` | backend/app/application/services/context/_text.py:6-11 | With a common part c and separate parts x and y it is |c| of |c| + |x| + |y| |
| `Text.JaccardIsOne` | backend/app/application/services/context/_text.py:6-11 | It is 1 iff the sets are equal and not empty |
| `Clustering.Forest.Find` | backend/scripts/benchmark_stage18.py:66-70 | Returns the root of the id's tree; path halving changes no root and keeps the parent map acyclic, so the loop ends |
| `Clustering.HalvePath` | backend/scripts/benchmark_stage18.py:67-69 | Pointing an id at its grandparent keeps the forest, the roots and the ranks |
| `Clustering.Forest.Union` | backend/scripts/benchmark_stage18.py:75 | The two trees, and only they, come to share a root |
| `Clustering.HangBelow` | backend/scripts/benchmark_stage18.py:75 | Hanging one root below another keeps the parent map acyclic |
| `Clustering.RootIsReached` | backend/scripts/benchmark_stage18.py:66-70 | Following parents from any id arrives at its root in finitely many steps |
| `Clustering.LinkSimilar` | backend/scripts/benchmark_stage18.py:72-75 | At the end two ids have the same root iff they are connected by a chain of similar, non-empty signatures |
| `Clustering.RootsFollowChains` | backend/scripts/benchmark_stage18.py:72-75 | Trying every pair of positions once is enough: similar ids, hence whole chains, share a root |
| `Clustering.MergeKeepsConnected` | backend/scripts/benchmark_stage18.py:74-75 | A union joins only what is connected |
| `Clustering.CountComponents` | backend/scripts/benchmark_stage18.py:76 | There are as many roots as connected components |
| `Clustering.BruteforceComponents` | backend/scripts/benchmark_stage18.py:62-76 | The returned number is the number of connected components of the similarity graph |
| `Clustering.TwoMemories` | backend/scripts/benchmark_stage18.py:62-76 | Two memories with tokens form one component iff the tokens they share are at least the given part of all their tokens, and else two |
| `Clustering.EmptyStandsAlone` | backend/scripts/benchmark_stage18.py:72-75 | A memory without tokens is a component of its own |
| `RefreshStore.InMemoryRefreshTokenStore.SaveRecord` | backend/app/infrastructure/auth/refresh_store_memory.py:28-29 | The save step of the protocol: the record is filed under its token, all else stays |
| `RefreshStore.InMemoryRefreshTokenStore.ConsumeForRotation` | backend/app/infrastructure/auth/refresh_store_memory.py:31-48 | The atomic step of the protocol: the verdict, and consumption iff it is VALID |
| `RefreshStore.InMemoryRefreshTokenStore.RevokeFamily` | backend/app/infrastructure/auth/refresh_store_memory.py:50-51 | The revoke step of the protocol: the family joins the revoked ones, all else stays |
| `RefreshStore.InMemoryRefreshTokenStore.FamilyOfToken` | backend/app/infrastructure/auth/refresh_store_memory.py:53-55 | The family of a known token, revoked and expired ones included |
| `TokenHistory.VerdictByHistory` | backend/app/infrastructure/auth/refresh_store_memory.py:28-51 | After any calls the verdict follows from what was called: never saved; family revoked at any time; expired; presented in time before since it was saved, ahead of any revocation; or else valid |
| `TokenHistory.RecordIs` | backend/app/infrastructure/auth/refresh_store_memory.py:28-51 | A record is the one saved last, consumed iff the token has been taken since |
| `TokenHistory.TakenOnce` | backend/app/infrastructure/auth/refresh_store_memory.py:31-48 | A valid token has not been taken since it was saved, and presenting it takes it |
| `AuthProtocol.InvStep` | backend/app/application/services/auth/auth_service.py:76-117 | Every step of every interleaving, over either store, keeps: at most one unconsumed token or rotation in flight per family, and tokens waiting to be saved are new to the store |
| `AuthProtocol.AtMostOneClaim` | backend/app/application/services/auth/auth_service.py:86-117 | In every run, over the in-memory or the Redis store, a family has at most one unconsumed token, counting rotations between consume and save |
| `AuthProtocol.ValidAtMostOnce` | backend/app/application/services/auth/auth_service.py:86-94 | No token is answered VALID twice in a run, over either store |
| `AuthProtocol.StaysStep` | backend/app/application/services/auth/auth_service.py:86-117 | Over either store consumed stays consumed and a save never overwrites an entry; in memory revoked stays revoked |
| `AuthProtocol.RevokedForGood` | backend/app/infrastructure/auth/refresh_store_memory.py:31-51 | In memory, after a family is revoked each of its tokens is refused, also one saved later by a rotation in flight |
| `AuthProtocol.ReplayRevokes` | backend/app/application/services/auth/auth_service.py:86-94 | In memory a replay of a consumed, unexpired token leads to the revocation of its family; from the replaying request's next step on every token of the family is refused |
| `AuthService.Service.IssuePair` | backend/app/application/services/auth/auth_service.py:102-117 | The minted token is saved as active, for the given family, until now plus the lifetime |
| `AuthService.Service.Refresh` | backend/app/application/services/auth/auth_service.py:86-94 | Succeeds iff the token is VALID; the store becomes that of the uninterrupted refresh |
| `AuthService.Service.Logout` | backend/app/application/services/auth/auth_service.py:96-100 | Revokes the token's family if it is known, else changes nothing |
| `AuthService.RefreshHandsOver` | backend/app/application/services/auth/auth_service.py:86-94 | After a refresh the new token is VALID until its lifetime ends and the old one is a replay until it expires; after a replay nothing of the family is accepted |
| `AuthService.LogoutEndsSession` | backend/app/application/services/auth/auth_service.py:96-100 | After a logout every token of the presented token's family is refused, and the answers for all other tokens are as before |
| `AuthService.RefreshIsInterleaving` | backend/app/application/services/auth/auth_service.py:86-117 | An uninterrupted refresh is one of the protocol's interleavings |
| `RedisRefreshStore.RedisRefreshTokenStore.SaveRecord` | backend/app/infrastructure/auth/refresh_store_redis.py:66-78 | The key is filed, its truncated lifetime computed from the clock as read before and counted from when it is set; all else stays |
| `RedisRefreshStore.RedisRefreshTokenStore.ConsumeForRotation` | backend/app/infrastructure/auth/refresh_store_redis.py:80-87 | The script's verdict on what has not lapsed, and its one write iff the verdict is VALID |
| `RedisRefreshStore.RedisRefreshTokenStore.RevokeFamily` | backend/app/infrastructure/auth/refresh_store_redis.py:89-90 | The marker is set with the family lifetime, also when there is one already |
| `RedisRefreshStore.RedisRefreshTokenStore.FamilyOfToken` | backend/app/infrastructure/auth/refresh_store_redis.py:92-96 | The family of a token whose key has not lapsed |
| `RedisRefreshStore.KeyOutlivesToken` | backend/app/infrastructure/auth/refresh_store_redis.py:66-78 | The key ends by the token's expiry iff the clock was read at least one second before it and the key was set within the fraction of a second that truncation drops |
| `RedisParity.AgreeStep` | backend/app/infrastructure/auth/refresh_store_redis.py:29-96 | Run on the same calls, a live key carries the same data as the record in memory, and the same status unless the verdict no longer depends on it |
| `RedisParity.SameVerdictExactly` | backend/app/infrastructure/auth/refresh_store_redis.py:29-87 | After any calls, revocations resolved by each store from its own answers, the verdicts on a live key agree iff the family is revoked in memory iff marked in Redis, and else Redis sees an expiry the clock has passed, and else the statuses agree should Redis alone have marked the family |
| `RedisParity.SameLogoutExactly` | backend/app/infrastructure/auth/refresh_store_redis.py:92-96 | Both stores name the same family for a logout iff the presented key is alive or the token is unknown |
| `RedisParity.RevokedAlikeStep` | backend/app/application/services/auth/auth_service.py:86-100 | While no logout or replay with a token of the family comes after its key has lapsed, both stores revoke it, or are about to, alike |
| `RedisParity.OutlivedStep` | backend/app/infrastructure/auth/refresh_store_redis.py:66-90 | The revocation marker of a family outlives every key of it that was saved before the revocation |
| `RedisParity.SameVerdict` | backend/app/infrastructure/auth/refresh_store_redis.py:29-87 | For a family with its tokens saved in time, none of them after its revocation, and no logout or replay in it after the key has lapsed, both stores give the same verdict on every live key, whatever happens in other families; a lapsed key is NOT_FOUND |
| `RedisParity.RedisValidIsValid` | backend/app/infrastructure/auth/refresh_store_redis.py:80-87 | Under the same conditions on its family, a token that Redis answers VALID the in-memory store answers VALID |
| `RedisParity.SameOwnerNamed` | backend/app/infrastructure/auth/refresh_store_redis.py:29-87 | Whatever the verdict on a live key, Redis names the owner and the family that memory has recorded |
| `RedisParity.RedisValidAtMostOnce` | backend/app/infrastructure/auth/refresh_store_redis.py:29-48 | Whatever lapses or is revoked in between, Redis answers VALID at most once each time a token is saved |
| `RedisParity.LapsedLogoutSlipsThrough` | backend/app/infrastructure/auth/refresh_store_redis.py:92-96 | The condition on logouts is needed, all others met: a rotated token presented for logout after its key has lapsed leaves its successor VALID in Redis only |
| `RedisParity.LapsedReplaySlipsThrough` | backend/app/infrastructure/auth/refresh_store_redis.py:66-87 | So is that on replays: in the last second of a token its key does not see the replay |
| `RedisParity.LateSaveSlipsThrough` | backend/app/infrastructure/auth/refresh_store_redis.py:66-90 | So is that on late saves: a token saved after its family was revoked outlives the marker |
| `RedisParity.ShortSaveSlipsThrough` | backend/app/infrastructure/auth/refresh_store_redis.py:66-87 | So is saving a second ahead: with half a second to go Redis accepts an expired token |
| `RedisParity.SlowSaveSlipsThrough` | backend/app/infrastructure/auth/refresh_store_redis.py:66-87 | So is setting the key soon after its lifetime is computed: three quarters of a second later it outlives its token |
| `RedisParity.LongSaveSlipsThrough` | backend/app/infrastructure/auth/refresh_store_redis.py:66-90 | So is a token lifetime within the family lifetime: otherwise a revoked token is accepted again when the marker has lapsed |
| `Sse.ParseFrame` | frontend/src/lib/sse.ts:14-23 | The last event line wins, data lines are joined by newlines, a block without data is no frame |
| `SseFrames.BlockDenotes` | frontend/src/lib/sse.ts:14-23 | A block of any name lines, data lines and others reads as the name given last, `message` without one, with all the data joined in order; without data it is no frame |
| `SseFrames.BlocksRejoin` | frontend/src/lib/sse.ts:40-53 | The blocks with a blank line after each, followed by the buffer, are the text; no blank line is left in any of them |
| `SseFrames.BadBlockIsSkipped` | frontend/src/lib/sse.ts:46-52 | A block without data or with a malformed payload is skipped and the blocks around it are read as without it |
| `SseFrames.GoodBlockIsRead` | frontend/src/lib/sse.ts:46-52 | Every other block gives one event, after those before it |
| `Sse.Drain` | frontend/src/lib/sse.ts:42-53 | The inner loop decodes the complete blocks in order and leaves the rest in the buffer |
| `Sse.ReadAgentStream` | frontend/src/lib/sse.ts:26-57 | Whatever the chunks, events and final buffer are those of parsing the whole text at once |
| `Sse.BlocksAppend` | frontend/src/lib/sse.ts:40-53 | Splitting into blocks is incremental: more text only adds blocks, read from what was left over |
| `Sse.FindsFirst` | frontend/src/lib/sse.ts:43 | The separator found is the first one, so blocks are split at every blank line |
| `Sse.FrameReadsBack` | backend/app/api/v1/routes/query.py:48-49 | The parser inverts the printer for a line-safe name and payload |
| `Sse.StreamReadsBack` | backend/app/api/v1/routes/query.py:48-49 | The concatenated frames of any list of line-safe events decode to that list with nothing left over |
| `Sse.ReadsBackInPieces` | frontend/src/lib/sse.ts:26-57 | The same through any split into chunks: exactly those events in order and an empty buffer |
| `SseExactness.OnlyLineSafe` | frontend/src/lib/sse.ts:14-23 | Nothing else survives: if a list of events reads back from its printed form, every name and payload in it is newline-free and trimmed |
| `SseExactness.RoundTripExactly` | frontend/src/lib/sse.ts:14-53 | Printing a list of events and reading it back is the identity iff every name and payload is line-safe |
| `EventSource.StandardReadsBack` | backend/app/api/v1/routes/query.py:48-49 | The reader of the WHATWG HTML Living Standard, section 9.2.6, reads back every printed list of named events without line ends |
| `EventSource.ReadersAgreeExactly` | frontend/src/lib/sse.ts:14-53 | On the printed form of line-safe events the client and the standard agree iff every event has a name and no carriage return occurs |
| `EventSource.SpaceIsKept` | frontend/src/lib/sse.ts:18-19 | Where the client trims, the standard drops one space: a payload that starts with a space is read differently |
| `Tokens.NormalizationIsCheap` | backend/app/application/services/context/tokenization.py:18-22 | Collapsing whitespace never raises the token count of any text |
| `Tokens.CountIsLeast` | backend/app/application/services/context/tokenization.py:18-22 | The count is the least number of four-character tokens that hold the trimmed text, 0 for blank text |
| `Tokens.StripIs` | backend/app/application/services/context/tokenization.py:18-22 | Stripping takes off exactly the white space around a text |
| `Tokens.NormalizedShort` | backend/app/application/services/context/_text.py:14-16 | The collapsed text is no longer than the trimmed one |
| `Tokens.WordsSurvive` | backend/app/application/services/context/_text.py:14-16 | Words joined by single spaces split into the same words |
| `Tokens.NormalizeTwice` | backend/app/application/services/context/_text.py:14-16 | Normalising keeps the words and is idempotent |
| `Tokens.WordsBetweenGaps` | backend/app/application/services/context/_text.py:14-16 | The words of any text are its parts between gaps of white space |
| `Tokens.NormalizedIs` | backend/app/application/services/context/_text.py:14-16 | Normalised text has the same words, and single blanks between them as its only white space |
| `Sorting.SortSorts` | backend/app/application/services/context/selection_service.py:23-25 | The ordered list is descending and a rearrangement of the input |
| `Sorting.SortStable` | backend/app/application/services/context/consolidation_service.py:26 | Elements of equal key keep their order, as in Python's stable descending sort |
| `Sorting.SortOfSorted` | backend/app/application/services/context/compressor.py:41 | A list that is in order is left alone |
| `Greedy.AdmissionIsSound` | backend/app/application/services/context/selection_service.py:31-52 | Admitted and refused partition the input, the admitted fit the budget, and nothing refused fits into what the whole loop leaves |
| `Greedy.AdmitsAll` | backend/app/application/services/context/compressor.py:45-52 | When everything fits nothing is refused |
| `Context.Select` | backend/app/application/services/context/selection_service.py:21-53 | The loop computes greedy admission of the ordered candidates |
| `Context.Consolidate` | backend/app/application/services/context/consolidation_service.py:25-54 | The loop computes the kept memories, the merges in order and the records grouped by kept memory |
| `Context.FindDuplicate` | backend/app/application/services/context/consolidation_service.py:34-38 | The first kept memory at or above the threshold, if any |
| `ContextPackage.FirstDuplicateAt` | backend/app/application/services/context/consolidation_service.py:35-39 | It is the first kept memory whose tokens overlap enough, by the numbers of common and of all tokens |
| `Context.Compress` | backend/app/application/services/context/compressor.py:28-60 | The loop computes greedy admission of the normalised, score-ordered memories and the two token totals |
| `Context.Assemble` | backend/app/application/services/context/context_builder.py:108-124 | The stages compose as in the pipeline with one shared budget |
| `ContextPackage.PackageIsNormalized` | backend/app/application/services/context/compressor.py:34-65 | Entry by entry the package is the kept memories with id, kind, status, score and promotion unchanged; each content has the words of the original, single blanks as its only white space, and its own recount as tokens |
| `ContextPackage.PackageFromCandidates` | backend/app/application/services/context/context_builder.py:106-131 | Every entry is one of the candidates with its content normalised |
| `ContextPackage.PackageInOrder` | backend/app/application/services/context/context_builder.py:106-131 | Entries come in descending order of score |
| `ContextPackage.DroppedFromCandidates` | backend/app/application/services/context/context_builder.py:106-131 | Whatever is dropped is a candidate with its own content, over the budget or as a duplicate, never by compression |
| `ContextProperties.KeptApart` | backend/app/application/services/context/consolidation_service.py:31-42 | Kept memories are pairwise below the threshold |
| `ContextPackage.KeptOverlapLittle` | backend/app/application/services/context/consolidation_service.py:33-43 | The tokens two kept memories have in common are below the threshold part of all their tokens; equal token sets are never both kept |
| `ContextProperties.MergesJustified` | backend/app/application/services/context/consolidation_service.py:40-46 | Each removed memory is merged into a kept one of at least its score and of similarity at or above the threshold |
| `ContextProperties.ConsolidationConserves` | backend/app/application/services/context/consolidation_service.py:25-54 | Kept and removed memories together are the input, as multisets |
| `ContextProperties.ConsolidateTwiceSorted` | backend/app/application/services/context/consolidation_service.py:25-54 | Consolidating the result again keeps all of it and records nothing |
| `ContextProperties.RecordsByKept` | backend/app/application/services/context/consolidation_service.py:46-54 | One record per kept id, and it lists the ids merged into that one in order |
| `ContextProperties.RecordsPartition` | backend/app/application/services/context/consolidation_service.py:46-54 | The records partition the removed list: every removed id once |
| `ContextProperties.RecordsInOrder` | backend/app/application/services/context/consolidation_service.py:43-55 | The records come in the order of the first merge into each kept id |
| `ContextProperties.CompressionRemovesNothing` | backend/app/application/services/context/context_builder.py:108-124 | Compression after selection prunes nothing: the package is the consolidated memories up to normalised content, and its total is within the budget iff the budget is not negative |
| `ContextProperties.PriorityRespected` | backend/app/application/services/context/selection_service.py:21-53 | A candidate is dropped only if it and the selected memories that rank at least as high exceed the budget: no unpromoted memory displaces a promoted one |
| `ContextProperties.BudgetDropsDoNotFit` | backend/app/application/services/context/selection_service.py:44-52 | A candidate dropped for the budget does not fit into what the whole selection leaves |
| `ContextProperties.CandidatesConserved` | backend/app/application/services/context/context_builder.py:108-124 | The input ids are the package ids plus the dropped ids, as multisets |
| `LeaseLock.InMemoryDistributedLock.TryAcquire` | backend/app/infrastructure/locks/in_memory_lock.py:30-36 | Succeeds iff no lease is live; the drawn token then owns the lock |
| `LeaseLock.InMemoryDistributedLock.TryRenew` | backend/app/infrastructure/locks/in_memory_lock.py:38-43 | Extends the lease of its live owner only |
| `LeaseLock.InMemoryDistributedLock.TryRelease` | backend/app/infrastructure/locks/in_memory_lock.py:45-50 | Frees the lock of this token, lapsed or not, and no other |
| `LeaseLock.RedisDistributedLock.TryAcquire` | backend/app/infrastructure/locks/redis_lock.py:47-56 | Succeeds iff no lease is live; lifetimes below a second are raised to one |
| `LeaseLock.RedisDistributedLock.TryRenew` | backend/app/infrastructure/locks/redis_lock.py:58-66 | Compare-and-expire on the live key |
| `LeaseLock.RedisDistributedLock.TryRelease` | backend/app/infrastructure/locks/redis_lock.py:68-74 | Compare-and-delete on the live key |
| `LeaseLock.LeaseLasts` | backend/app/infrastructure/locks/redis_lock.py:33-74 | A granted or renewed lease is live for exactly its lifetime, in Redis for at least a second |
| `LeaseLock.StaleTokenIsHarmless` | backend/app/infrastructure/locks/in_memory_lock.py:30-50 | While another token owns the lock no call with a stale one changes anything, in either realisation |
| `LeaseLock.ReleaseHandsOver` | backend/app/infrastructure/locks/in_memory_lock.py:30-50 | A release by the owner frees the lock at once for the next owner and touches no other lock, in either realisation |
| `LeaseLock.SameLeaseStep` | backend/app/infrastructure/locks/redis_lock.py:33-74 | With lifetimes of a second or more on one lock each call, on this lock or another, keeps its live lease equal in both, and the answers on it differ iff a lapsed lease is released |
| `LeaseLock.SameOwner` | backend/app/infrastructure/locks/redis_lock.py:33-74 | After any run in which the lifetimes on a lock are a second or more, both realisations have the same owner of it at every later instant, and the next call on it is answered alike but for the release of a lapsed lease; calls on other locks are arbitrary |
| `LeaseLock.SameLeaseIffLongEnough` | backend/app/infrastructure/locks/redis_lock.py:47-56 | Taking a free lock gives the same lease in both iff the lifetime is a second or more |
| `SingleOwner.InvStep` | backend/app/application/services/locking.py:43-55 | Over either lock a body within its deadline holds exactly the lease it was granted, whatever the others do |
| `SingleOwner.BodiesExclude` | backend/app/application/services/locking.py:43-55 | Bodies that have not let their lease lapse never overlap under one lock, in memory or shared in Redis |
| `SingleOwner.LapsedBodiesOverlap` | backend/app/application/services/locking.py:43-55 | Without the proviso they can, over either lock: a run in which they do |
| `SingleOwner.LostForGood` | backend/app/infrastructure/locks/in_memory_lock.py:24-50 | A token that does not own a lock never owns it again |
| `SingleOwner.OwnershipIsOneInterval` | backend/app/infrastructure/locks/in_memory_lock.py:24-50 | The instants at which a token owns a lock form one interval, so leases of different tokens are disjoint |
| `Window.BucketBounds` | backend/app/infrastructure/ratelimit/window.py:14-15 | A bucket begins at a multiple of the window and lasts one window |
| `Window.BucketsMonotone` | backend/app/infrastructure/ratelimit/window.py:14-15 | The bucket number never falls while time goes on |
| `Window.TwoBuckets` | backend/app/infrastructure/ratelimit/window.py:14-15 | An interval of window length meets at most two buckets |
| `RateLimit.InMemoryRateLimiter.Hit` | backend/app/infrastructure/ratelimit/in_memory_limiter.py:21-27 | The slot of the key moves to the current bucket and the decision is that for its count |
| `RateLimit.RedisRateLimiter.Hit` | backend/app/infrastructure/ratelimit/redis_limiter.py:40-45 | The counter of key and bucket goes up, its expiry is set only when it starts, and the decision is that for its count |
| `RateLimit.SlotCountIsSeen` | backend/app/infrastructure/ratelimit/in_memory_limiter.py:21-27 | The single slot counts the calls of the current bucket, although it is overwritten |
| `RateLimit.CellCountIsSeen` | backend/app/infrastructure/ratelimit/redis_limiter.py:25-45 | The expiring counter counts the same calls: it never lapses within its bucket |
| `RateLimit.SameDecision` | backend/app/infrastructure/ratelimit/redis_limiter.py:40-45 | Both limiters give the same decision on every call of every run |
| `RateLimit.FirstCallsAllowed` | backend/app/infrastructure/ratelimit/window.py:18-31 | With a fixed limit exactly the first `limit` calls of a bucket are allowed |
| `RateLimit.AtMostTwiceTheLimit` | backend/app/infrastructure/ratelimit/window.py:18-31 | Any interval of window length sees at most twice the limit |
| `RateLimit.RemainingIsHonest` | backend/app/infrastructure/ratelimit/window.py:23 | The announced remaining number is that of the further calls of the bucket that are let through |
| `RateLimit.ResetIsExact` | backend/app/infrastructure/ratelimit/window.py:21 | The announced reset is the first instant after the current bucket |
| `RateLimit.RetryAfterIsEnough` | backend/app/infrastructure/ratelimit/window.py:24 | Waiting for the announced seconds leads into the next bucket iff the refusal came at a whole second; one second more always does |
| `Cron.StepsMembers` | backend/app/infrastructure/scheduler/cron.py:41-43 | The bounds-and-remainder test is membership in start, start + step, ... up to end |
| `Cron.NumeralReadsBack` | backend/app/infrastructure/scheduler/cron.py:27-43 | The decimal numeral of every number is read as that number |
| `Cron.NumbersAreDigits` | backend/app/infrastructure/scheduler/cron.py:27-43 | A text is read as a number iff it consists of one or more decimal digits |
| `Cron.PartDenotes` | backend/app/infrastructure/scheduler/cron.py:27-43 | A well-formed part matches exactly the values it denotes |
| `Cron.ZeroStepFails` | backend/app/infrastructure/scheduler/cron.py:36-43 | A part with step zero is malformed for values in its range and no match for others |
| `Cron.FieldDenotes` | backend/app/infrastructure/scheduler/cron.py:46-47 | A field matches exactly the union of its parts' values |
| `Cron.FirstDecides` | backend/app/infrastructure/scheduler/cron.py:46-47 | The first part that is not simply missed decides: a match before a malformed part hides it, and otherwise the field is malformed |
| `Cron.NotANumber` | backend/app/infrastructure/scheduler/cron.py:27-43 | A part that is neither a star nor a number nor has a dash or a slash is malformed, whatever the value |
| `Cron.SundayAsSeven` | backend/app/infrastructure/scheduler/cron.py:68-71 | The second test for Sunday adds only Sundays named by a 7 in the field |
| `Cron.WeekdayDenotes` | backend/app/infrastructure/scheduler/cron.py:68-71 | The weekday field matches its denoted days, with 7 as Sunday |
| `Cron.CronDenotes` | backend/app/infrastructure/scheduler/cron.py:50-76 | A well-formed expression is due exactly in the minutes it denotes; the day fields combine by OR exactly when neither is literally `*` |
| `CronRules.CommentHoldsExactly` | backend/app/infrastructure/scheduler/cron.py:71-76 | The code follows its comment (OR when either day field is restricted) iff the minute misses the clock or the month, or both or neither of the day fields are `*`, or both or neither are hit |
| `CronRules.StandardHoldsExactly` | backend/app/infrastructure/scheduler/cron.py:50-76 | The code follows the crontab rule of IEEE Std 1003.1 (month and day together, or the weekday) iff the minute misses the clock, the weekday is `*`, month and day are both `*`, or else: with day `*` month and weekday are hit alike, with a restricted day the month is hit or the weekday missed |
| `CronRules.CommentFails` | backend/app/infrastructure/scheduler/cron.py:71-76 | With a clock time and a weekday (`0 0 * * 1`) every day is due by the comment, only that weekday by the code |
| `CronRules.StandardFails` | backend/app/infrastructure/scheduler/cron.py:71-76 | With a clock time, a month and a weekday (`0 0 1 1 1`) the weekday is due outside the month by the standard, not by the code |
| `CronRules.NamedExpressions` | backend/app/infrastructure/scheduler/cron.py:50-76 | Midnight by the texts themselves: `0 0 * * 1` is not due on the other days, `0 0 1 1 1` not on Mondays outside January, although the comment and the standard make them due |
| `CronRules.ScheduleReadsBack` | backend/app/infrastructure/scheduler/cron.py:52-54 | Every schedule can be written: the five fields joined by spaces split into themselves |
| `MalformedCron.FiveWordsOrNone` | backend/app/infrastructure/scheduler/cron.py:52-54 | Anything but five words is malformed, whatever the minute |
| `MalformedCron.FiveStars` | backend/app/infrastructure/scheduler/cron.py:50-76 | Five stars are due in every minute |
| `Scheduler.InProcessScheduler.Add` | backend/app/infrastructure/scheduler/in_process_scheduler.py:65-66 | One registration per name, the new one in place of the old |
| `Scheduler.RegisterDistinct` | backend/app/infrastructure/scheduler/in_process_scheduler.py:65-66 | Registering keeps names distinct and every other registration |
| `Scheduler.RegisterInPlace` | backend/app/infrastructure/scheduler/in_process_scheduler.py:65-66 | A new registration takes the place of the one with its name, or else the last place |
| `Scheduler.InProcessScheduler.SafeRun` | backend/app/infrastructure/scheduler/in_process_scheduler.py:102-115 | The job runs once; what it raises is caught and counted, a cancellation passes through uncounted |
| `Scheduler.InProcessScheduler.RunDue` | backend/app/infrastructure/scheduler/in_process_scheduler.py:85-100 | The loop performs one round and says whether it was completed |
| `Scheduler.RoundEffect` | backend/app/infrastructure/scheduler/in_process_scheduler.py:95-100 | In a round a registration fires iff the round reaches it, it is due and it has not run in this minute |
| `Scheduler.RoundCompletes` | backend/app/infrastructure/scheduler/in_process_scheduler.py:95-100 | A round is completed iff every expression in it parses and no job that runs in it is cancelled |
| `Scheduler.MinuteIs` | backend/app/infrastructure/scheduler/in_process_scheduler.py:85-94 | Minute m lasts from second 60 m up to, and without, second 60 m + 60 |
| `Scheduler.RunsLogTruly` | backend/app/infrastructure/scheduler/in_process_scheduler.py:85-115 | Every execution in a run is of a registered job in one of its due minutes, with the outcome the job has then |
| `Scheduler.ReachesAtVisit` | backend/app/infrastructure/scheduler/in_process_scheduler.py:95-100 | Each visit to a minute gets past one more cancelled job, since those before it have run already |
| `Scheduler.FiresExactlyOnce` | backend/app/infrastructure/scheduler/in_process_scheduler.py:85-100 | Over any non-decreasing instants a job fires at most once in a minute, and does so iff it is due, no malformed expression is registered before it, and the minute holds more instants than cancelled jobs registered before it; exceptions of jobs make no difference |
| `Scheduler.NoMinuteSkipped` | backend/app/infrastructure/scheduler/in_process_scheduler.py:85-100 | With at most 60 seconds between instants every minute in between is visited |
| `Scheduler.NoDueMinuteMissed` | backend/app/infrastructure/scheduler/in_process_scheduler.py:85-100 | Then a job with no cancelled job and no malformed expression before it fires exactly once in each of its due minutes in between |
| `MalformedCron.EmptyExpressionBlocks` | backend/app/infrastructure/scheduler/in_process_scheduler.py:85-100 | A job on five stars registered after one with an empty expression is due in every minute and never fires, in any run |
| `Rounding.Round4InUnit` | backend/app/domain/entities/memory_score.py:56 | Rounding to four decimals stays in the unit interval |
| `Rounding.RoundsToNearest` | backend/app/application/services/memory_analytics_service.py:87-93 | The result is the nearest ten-thousandth, of two the upper one |
| `Analytics.CountScores` | backend/app/application/services/memory_analytics_service.py:86-91 | The nested loop counts each score in the bucket that holds it |
| `AnalyticsLaws.AggregateCounts` | backend/app/application/services/memory_analytics_service.py:77-99 | The counts are the numbers of the memories, and of those among them that are active, archived and promoted |
| `AnalyticsLaws.DistributionCounts` | backend/app/application/services/memory_analytics_service.py:77-99 | Bucket b counts the scores from b/5 up to, and without, (b+1)/5, the last one with 1 |
| `AnalyticsLaws.AverageIsMean` | backend/app/application/services/memory_analytics_service.py:77-99 | The average is the mean score to the nearest ten-thousandth, 0 without memories |
| `AnalyticsLaws.SumAdds` | backend/app/application/services/memory_analytics_service.py:77-99 | The sum adds up the single scores however the memories are split |
| `Analytics.BucketsPartition` | backend/app/application/services/memory_analytics_service.py:28-34 | For scores in the unit interval the bucket counts add up to the number of memories |
| `Analytics.BucketIsFifth` | backend/app/application/services/memory_analytics_service.py:28-34 | The bucket of a score is the fifth of the unit interval it lies in, with 1 in the last |
| `Analytics.AverageInUnit` | backend/app/application/services/memory_analytics_service.py:82-83 | With scores in the unit interval so is the rounded average |
| `Analytics.AggregateOrderless` | backend/app/application/services/memory_analytics_service.py:77-99 | The aggregate does not depend on the order of the memories |
| `AnalyticsCache.KeysDistinct` | backend/app/application/services/cache/cache_keys.py:16-35 | Different scopes have different keys, and a write invalidates exactly the writer's and the global analytics key |
| `AnalyticsCache.InMemoryCacheProvider.Get` | backend/app/infrastructure/cache/in_memory_cache.py:19-27 | A live entry or nothing; a lapsed entry is evicted |
| `AnalyticsCache.InMemoryCacheProvider.Set` | backend/app/infrastructure/cache/in_memory_cache.py:29-30 | The entry lives for the given lifetime |
| `AnalyticsCache.InMemoryCacheProvider.Delete` | backend/app/infrastructure/cache/in_memory_cache.py:32-33 | The key is gone, all others stay |
| `AnalyticsCache.WithoutIs` | backend/app/application/services/cache/cache_invalidation_handler.py:42-47 | Deleting the keys one by one removes exactly the invalidated entries |
| `AnalyticsCache.MemoryAnalyticsService.GetAnalytics` | backend/app/application/services/memory_analytics_service.py:52-71 | Cache-aside: a hit is served as is, a miss is computed, served and stored |
| `AnalyticsLaws.ServedForTtl` | backend/app/application/services/memory_analytics_service.py:52-71 | What a read computes is served for exactly the lifetime, whatever the table becomes, and computed anew from then on |
| `AnalyticsLaws.HitsDoNotProlong` | backend/app/application/services/memory_analytics_service.py:52-71 | A hit leaves the cache as it is, so reading prolongs no lifetime |
| `AnalyticsLaws.ListForWhom` | backend/app/repositories/memory_repository.py:109-118 | A scope covers the memories that are not deleted, of its user or of all |
| `AnalyticsCache.MemoryAnalyticsService.OnMemoryMutation` | backend/app/application/services/cache/cache_invalidation_handler.py:42-47 | The cache is left without the four invalidated keys |
| `AnalyticsCache.ReadsAreFresh` | backend/app/application/services/memory_analytics_service.py:52-71 | If every earlier write was announced or did not change the aggregate of a scope, a read of that scope serves the aggregate of the current store |
| `AnalyticsCache.OwnReadsAreFresh` | backend/app/application/services/memory_analytics_service.py:52-71 | A user is served the aggregate of the current store as long as the earlier unannounced writes are other users' |
| `AnalyticsCache.StaleAtMostTtl` | backend/app/application/services/memory_analytics_service.py:52-71 | With unannounced writes too, a served value is the aggregate of a store state less than the lifetime old |
| `AnalyticsCache.QuietWriteIsMissed` | backend/app/application/services/cache/cache_invalidation_handler.py:27-35 | Announcement is needed: any unannounced write that changes an aggregate is missed in some run |
| `AnalyticsWrites.QuietOperations` | backend/app/application/services/cache/cache_invalidation_handler.py:27-35 | The successful operations that analytics does not hear of are exactly restore, supersede and forget |
| `AnalyticsWrites.OperationsAreWrites` | backend/app/application/services/cache/cache_invalidation_handler.py:42-50 | Every successful lifecycle operation on a stored memory is a write of its owner in the cache runs, announced iff it is not one of those three |
| `AnalyticsWrites.CreationIsWrite` | backend/app/application/use_cases/memory_use_cases_impl.py:54-67 | Creating a memory is an announced write of its owner that adds one active memory to the owner's list and to everybody's |
| `AnalyticsWrites.QuietChanges` | backend/app/application/services/memory_analytics_service.py:77-99 | In every table a quiet operation changes exactly the aggregates of its user and of everybody, but none when it forgets a superseded memory |
| `AnalyticsWrites.HarmlessExactly` | backend/app/application/services/cache/cache_invalidation_handler.py:27-35 | An operation keeps what is cached for a scope fresh iff it is announced, forgets a superseded memory, or is on a memory outside the scope |
| `AnalyticsWrites.SeenQuietIsMissed` | backend/app/application/services/cache/cache_invalidation_handler.py:27-35 | Any other one is missed by the next read in some run, in its user's and in the global scope |
| `Lifecycle.TotalInUnit` | backend/app/domain/entities/memory_score.py:46-56 | For valid components the weighted sum is in the unit interval, so the clamp never acts, and so is the total |
| `Lifecycle.SignalsAlone` | backend/app/domain/entities/memory_score.py:30-65 | What each of the five signals is worth on its own |
| `Lifecycle.ReinforcingRaises` | backend/app/domain/entities/memory_score.py:63-76 | Reinforcement by a non-negative step keeps the components valid and never lowers the total |
| `Lifecycle.DecayingLowers` | backend/app/domain/entities/memory_score.py:78-86 | Decay keeps the components valid and never raises the total |
| `Lifecycle.SoundStep` | backend/app/domain/entities/memory.py:103-223 | Every operation keeps valid scores, non-blank content, version at least 1, and priority 1 iff promoted and else 0 |
| `Lifecycle.FailureChangesNothing` | backend/app/domain/entities/memory.py:103-290 | A failed operation changes nothing and emits nothing |
| `Lifecycle.EmitsItsEvent` | backend/app/domain/entities/memory.py:103-223 | Which event each successful operation announces; restoring announces none |
| `Lifecycle.DeletedIsFinal` | backend/app/domain/value_objects/memory_status.py:34-45 | After deletion every guarded operation fails and changes nothing |
| `Lifecycle.RestoreUndoes` | backend/app/domain/entities/memory.py:183-204 | Archiving, superseding or forgetting an active memory and restoring it gives back the same memory |
| `Lifecycle.PromotedForGood` | backend/app/domain/entities/memory.py:161-181 | A memory is promoted at most once, and no operation takes the promotion or its priority away |
| `Lifecycle.ReuseKeepsPromotable` | backend/app/domain/entities/memory.py:125-181 | A memory that may be promoted may still be promoted after a reinforcement |
| `Lifecycle.FourReusesPromote` | backend/app/domain/entities/memory_score.py:30-90 | A new memory without signals can be promoted iff it has been reused at least four times |
| `Lifecycle.VersionCountsEdits` | backend/app/domain/entities/memory.py:103-123 | Content and metadata change only together with the version, by one |
| `Lifecycle.MemoryObject.UpdateContent` | backend/app/domain/entities/memory.py:103-123 | The edit happens as a whole or not at all, and is announced iff it happens; blank content and deleted memories are refused |
| `Lifecycle.MemoryObject.ReinforceBy` | backend/app/domain/entities/memory.py:125-142 | Whole new state, error and event; a score that would leave the unit interval is refused and nothing changes |
| `Lifecycle.MemoryObject.DecayBy` | backend/app/domain/entities/memory.py:144-159 | Whole new state, error and event; a factor outside the unit interval is refused and nothing changes |
| `Lifecycle.MemoryObject.PromoteAbove` | backend/app/domain/entities/memory.py:161-181 | Promotes iff active, not yet promoted and at or above the threshold; otherwise nothing changes |
| `Lifecycle.MemoryObject.MoveToArchive` | backend/app/domain/entities/memory.py:183-186 | Follows the transition table and announces itself iff it succeeds |
| `Lifecycle.MemoryObject.BringBack` | backend/app/domain/entities/memory.py:188-190 | Follows the transition table; success is not announced |
| `Lifecycle.MemoryObject.SupersedeByNewer` | backend/app/domain/entities/memory.py:192-199 | Follows the transition table and announces itself iff it succeeds |
| `Lifecycle.MemoryObject.AgeOut` | backend/app/domain/entities/memory.py:201-204 | Follows the transition table and announces itself iff it succeeds |
| `Lifecycle.MemoryObject.Tombstone` | backend/app/domain/entities/memory.py:220-223 | Follows the transition table and announces itself iff it succeeds |
| `Lifecycle.MemoryObject.TransitionStatus` | backend/app/domain/entities/memory.py:280-286 | Moves to the target iff the table allows it |
| `MemoryUseCases.Repository.CreateMemory` | backend/app/application/use_cases/memory_use_cases_impl.py:54-67 | A new memory starts active, neutral but for the given signals, at version 1; invalid scores and blank content leave the store as it was |
| `MemoryUseCases.Repository.UpdateMemory` | backend/app/application/use_cases/memory_use_cases_impl.py:75-94 | Refines the update: snapshot then edit, and after an error neither is kept |
| `MemoryUseCases.Repository.DeleteMemory` | backend/app/application/use_cases/memory_use_cases_impl.py:102-112 | Only the owner of a memory that is not deleted can delete it; otherwise the store is as it was |
| `MemoryUseCases.Repository.MaintainMemory` | backend/app/application/services/memory_intelligence_service.py:72-161 | Loads, operates and stores; a reinforcement may leave evidence in the metadata without a new version; an error keeps nothing |
| `MemoryEdits.UpdateSucceeds` | backend/app/application/use_cases/memory_use_cases_impl.py:75-94 | An update is carried out iff it gives content or metadata, its caller owns the stored memory, which is not deleted, and the resulting content is not blank |
| `MemoryEdits.UpdateWrites` | backend/app/application/use_cases/memory_use_cases_impl.py:75-94 | Then the stored content and metadata are the requested ones, or the earlier ones where none were given, at the next version; state, kind, score, promotion, priority and owner stay; one snapshot of the earlier memory with the given reason is appended |
| `MemoryEdits.CreateSucceeds` | backend/app/application/use_cases/memory_use_cases_impl.py:54-67 | A creation is carried out iff the given signals are in the unit interval and the content is not blank |
| `MemoryEdits.CreateWrites` | backend/app/application/use_cases/memory_use_cases_impl.py:54-67 | Then the stored memory is the requested one, active, unpromoted, at version 1, neutral but for the given signals |
| `MemoryEdits.DeleteWrites` | backend/app/application/use_cases/memory_use_cases_impl.py:102-112 | A deletion changes the state of its caller's memory and nothing else of it |
| `MemoryEdits.MaintenanceSucceeds` | backend/app/application/services/memory_intelligence_service.py:72-161 | Which maintenance is carried out: whose memory, from which states, with which scores and factors |
| `MemoryEdits.MaintenanceWrites` | backend/app/application/services/memory_intelligence_service.py:72-161 | What each maintenance operation writes into the stored memory, and that the rest of it stays |
| `MemoryEdits.HoldsLastContent` | backend/app/application/use_cases/memory_use_cases_impl.py:54-94 | In every run a memory holds the content of its last carried-out update that gave one, or else of its creation |
| `MemoryEdits.HoldsLastMetadata` | backend/app/application/use_cases/memory_use_cases_impl.py:54-94 | And the metadata of its last such update or evidence, or else of its creation |
| `MemoryUseCases.StepOn` | backend/app/application/use_cases/memory_use_cases_impl.py:75-112 | Any request leaves a memory either with content, version and history as they were, or one version up with the snapshot of what was there, metadata included, appended |
| `MemoryUseCases.InvStep` | backend/app/application/use_cases/memory_use_cases_impl.py:75-112 | Every request keeps the numbering of every history and the soundness of every memory |
| `MemoryUseCases.HistoryNumbered` | backend/app/domain/entities/memory_version.py:41-52 | In every run the snapshots of a memory at version v are numbered 1 to v - 1, once each and in order, and its priority, components and total are in range |
| `VersionHistory.SnapshotHolds` | backend/app/domain/entities/memory_version.py:41-52 | In every run snapshot k holds the content and the kind that were current at version k |
| `VersionHistory.SnapshotIsCapture` | backend/app/domain/entities/memory_version.py:41-52 | The edit that ends a version records all of the memory as it was then (content, kind, status, metadata), and that snapshot stays in its place in every later state |
| `VersionHistory.MetadataWithinVersion` | backend/app/application/services/memory_intelligence_service.py:72-161 | While a memory stays at a version, its metadata is what the last reinforcement with evidence left, or else what it was at the start |
| `VersionHistory.SnapshotMetadata` | backend/app/domain/entities/memory_version.py:41-52 | In every run snapshot k holds the kind and status at the edit that ends version k, and the metadata left by the last evidence before that edit |
| `VersionHistory.SnapshotHoldsMetadata` | backend/app/domain/entities/memory_version.py:41-52 | So it holds the metadata the memory had at any moment of version k from which on no reinforcement left evidence until the edit |
| `VersionHistory.EvidenceSlipsIn` | backend/app/application/services/memory_intelligence_service.py:72-161 | Without that condition it need not: create, reinforce with evidence, update, and snapshot 1 differs from the metadata version 1 was created with |
| `VersionHistory.VersionGrows` | backend/app/application/use_cases/memory_use_cases_impl.py:75-112 | Versions never go down and stored memories stay stored |
| `MemoryUseCases.DeletedIsGone` | backend/app/repositories/memory_repository.py:46-48 | Requests for a deleted memory are refused and change nothing |

## Left out

- get_node, get_edges: single look-ups.
- GraphRepository.Repository.GetSubgraph: the order of nodes is arbitrary, as it is for the set the code iterates over; the ids of a limited overview are picked in order instead of sorting all of them first.
- GraphRepository.Repository.Dfs: returns what the nested function of the source appends to a shared list.
- Node and edge properties are maps from text to text; other JSON values are not distinguished.
- Inner loops of breadth-first search, stream reading and consolidation, and the loop of depth-first search, are methods of their own; nothing else differs.
- Clustering: signatures are given; how they are computed is not part of this model. Every id has a signature, as the code's dictionary look-up demands.
- Floating point: scores, similarities and times are reals; rounding to four decimals is exact with halves upwards, where Python rounds binary floats half to even.
- Registration, user look-up, password checks, access tokens and hashing: a login is the step that opens a new family.
- AuthService.Service.Refresh: the fallback to a new family when the outcome has none is not modelled; both stores always name the family of a VALID token.
- The stored status `rotated` is called `Consumed`.
- RedisParity: a token is saved into both stores or neither, so runs are compared up to the first refresh that only one of them accepts; instants are not negative.
- RedisRefreshStore.RedisRefreshTokenStore.SaveRecord: writing the key and setting its lifetime is one step; no other call names the token before it is handed out, and a crash between the two, which would leave a key without a lifetime, is not modelled.
- Redis failures, clock skew between hosts, and the millisecond grain of key expiry.
- Byte decoding in the stream readers, a leading byte order mark, reconnection and event ids, and the abort of a stream; JSON is a pair of functions with parse(dump(x)) = x.
- RateLimit: windows are at least a second; a key keeps one window length, and for the bounds one limit. A window of 0 divides by zero in the source.
- Cron: numbers are written in digits; the signs, blanks and underscores that `int()` also accepts count as malformed.
- Scheduler.FiresExactlyOnce: the registry does not change between the rounds it speaks of, and how a job ends depends on the job and the minute.
- The scheduler's tickers, which end for good with the first round that is ended early, start, stop, run_job, run_all and timing metrics.
- Retrieval, conflict detection, the rendered context text, the compression ratio and authorization in the context pipeline; the tokenizer used for similarity is a parameter.
- Context: the dictionary of merge records is a list of records in insertion order.
- SingleOwner: a lapsed Redis key stays in the map until it is overwritten, where the server drops it; a critical section is a span between steps of the run, not a call with a body; a renewal may ask for any lifetime, where the source repeats the first one.
- Health values in the cache, delete_prefix, serialization of cached values (taken as the identity) and hit metrics.
- Cached reads that overlap a write: reads and writes are serial.
- The eligibility rules of archival and the decay factor of the maintenance services; the evidence they write is any metadata.
- Timestamps, category, retrieval counts, reclassification, maintenance stamps and rollback_to.
- MemoryUseCases.Repository.UpdateMemory: events are those of the aggregate; their dispatch after the commit is not modelled.
- HTTP routes, middleware, database and Neo4j adapters, providers, and the rest of the front end.
