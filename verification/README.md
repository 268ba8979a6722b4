# Miscreant: what the server promises, proved

Miscreant is a git server over object storage. This project models its five
connected cores in Dafny and proves, for every input, every interleaving and
every crash point, what the code's comments say about them.

- **Fetch** (`CommitDiscovery`, `EntryWalk`, `WantSelection`,
  `CollectionOrder`, `BreadthFirst`, `Collection`, `FetchPlan`, `ObjectPlan`,
  `PackSchedule`, `FetchService`). A WANT/HAVE walk over a generation-keyed heap selects
  commits, a level-order walk with pruning collects their trees and blobs.
  Specification: set reachability. The main theorem holds for *arbitrary*
  generation numbers: a client that holds the closure of its recognised haves
  and receives the plan holds the whole closure of every commit or tag it
  wanted, except exactly the blobs its filter withholds. With generations that decrease along parent edges the sent
  list is exactly the set difference in its one descending order, and the walk
  by whole levels sends what the walk entry by entry sends. `FetchService`
  composes planning, scheduling, feeding and writing: decoding the pack gives
  the content of everything the client lacks, and a request whose objects and
  records are all there is always served.
- **Push** (`Promotion`, `PushProtocol`, `RefTransactions`, `RepoRegistry`).
  An explicit-stack walk lists new objects children first, regrouping by kind
  keeps that order, records are appended one at a time and a ref transaction
  follows. Any number of pushes run step by step over one append-only log which
  a crash cuts to a prefix: every prefix is a consistent repository, and what a
  client was told stays true. A ref command takes effect if and only if its ref
  is where the client expects it.
- **Commit-graph records** (`CommitGraphRecords`). Backfill, rebuild and
  promotion write the longest-path depth of each commit, and both
  duplicate-tolerant stack walks terminate.
- **Packs** (`DeltaFormat`, `BlockIndexing`, `BlockQuota`, `DeltaEncoder`,
  `PackWriter`). The
  decoder is written from the sections "Size encoding" and "Deltified
  representation" of Git's gitformat-pack document; the encoder (rolling hash
  modulo 2^64, bounded-probe index, greedy matcher, size budget) is proved
  against it, and so is the pack of full and delta entries.
- **Part cache** (`PartCache`, `CacheEvictor`, `SingleFlight`). Cached range
  reads return the requested slice whatever is cached; the evictor's map, key
  vector and byte counter stay exact; overlapping calls for one key share one
  producer and one value.

`Reachability`, `GitObjects`, `OrderedSets` (first-seen order) and `Arithmetic`
hold the definitions and facts all of these share. Code
that mutates objects or buffers is modelled by classes and loops proved against
specification functions; concurrent protocols are state machines whose
invariants are proved over every run.

## Assumptions

- An object id determines immutable content, and references never form a cycle
  (`Acyclic`: every reference goes to a lower rank).
- A tree entry's mode agrees with its target's kind and commits name trees and
  commits (`KindsAgree`). Neither `object_children` nor `read_tree` checks this,
  and write order and pruning both depend on it; the next section has an input for
  each.
- A commit-graph record tells the truth about a commit's tree and parents
  (`Truthful`), not necessarily about its generation. `SoundRecordsServe` shows
  this of the records that backfill, rebuild and promotion write.
- A commit-graph record, once there, is never deleted (`Lasting`): a backfill that
  could see a record of its target at some read sees one at the target's own turn.
- `inflate` undoes `deflate` and yields the length asked for or nothing
  (`Lawful`).
- A transaction commit with writes succeeds only if what it read is unchanged;
  log records become durable in submission order.
- Generations stay below 2^32, the repository counter does not saturate, a
  commit has at most 255 parents; delta bases are shorter than 2^32 bytes (the
  pack writer offers at most 2 MiB).
- A response body from the object store delivers the requested bytes in any
  chunking, or breaks off (`Honest`); what other requests do to the cache between
  steps loses or adds only right parts (`Benign`).

## Where the code falls short of a tempting statement

- *Backfill returns the record.* Not if another writer had recorded the target by
  the read that is its own turn: the walk finds the record, never builds a result
  and reports the commit as missing (src/git/walk.rs:898, src/git/walk.rs:945).
  `GraphStore.Backfill` states the exact condition: with every ancestor readable it
  returns the record if nobody else had recorded the target by then (`Beaten`), and
  fails if somebody had. The own turn is the second read of a commit with parents,
  the only read of one without.
- *Concurrent backfills of overlapping ancestries are safe*
  (src/git/walk.rs:1209-1210). The records they write are. The lookups of one batch
  are not: `LookupLosesRace` is the lookup of a commit with a whole history that
  fails because another lookup recorded the commit by its turn. A have is then
  silently dropped; a want fails the request.
- *A call that did not return changed no ref.* Not if it was lost while it waited
  for its commit; `LostCallCanHaveWritten` is such a run. `WritesAtMostOnce` gives
  the exact condition: a call wrote a version exactly when it applied its commands
  there.
- *Grouping by kind keeps children first.* Only if no listed object refers to an
  unstored object of a kind written later, which nothing checks. `WriteOrderFirstIff`
  proves both directions; `MisnamedLeafBreaksPrefix` is a tree whose leaf entry
  names a commit, and `ValidateMisnamed` shows that validation accepts it.
- *Pruning loses nothing.* `WantComplete` proves it for agreeing kinds.
  `ListedAsLeafNotOpened` is a root tree that names a tree as a leaf, while a subtree
  names it as a subtree: the walk lists it among the blobs, never opens it, and the
  blob below it is not sent.
- *At most four offsets are indexed per block tag* (src/git/pack_out.rs:36). Per
  fingerprint, yes (`FingerprintQuota`). Per tag, no, not even within one probe
  window: `TagOverQuota` has five, because a neighbouring home slot starts its count
  later.
- *Aligned requests have aligned answers.* Not for a suffix of an object whose size
  is not a multiple of the part size: the assertion at
  src/storage/part_cache/cached_store.rs:280 fails. `SuffixCounterexample` gives an
  input and `PrefetchAligned` the exact condition, in terms of the request and the
  object size.
- *A newly added file is not evicted immediately.* `AccessedCanBeEvicted` is an
  access whose file the eviction it triggers can take. `SafeIffNewest` proves, over
  every run of the picking loop, that a file is safe exactly when the cache is within
  the target size already or the file was accessed strictly later than every other.

## Model

| member | source | states |
|---|---|---|
| CommitDiscovery.Discovery.Mark | src/git/walk.rs:237-263 | a mark changes the frontier, the state and the pending set together or not at all; HAVE absorbs everything and a downgrade leaves `pending` |
| CommitDiscovery.MarkedAllAt | src/git/walk.rs:237-263 | effect of marking a whole batch, order and duplicates included, at any one id and any one queue entry |
| CommitDiscovery.Discovery.PopLevel | src/git/walk.rs:608-644 | drains exactly the entries of the highest generation; yields the unvisited ids once each in descending order |
| OrderedSets.NewInOrder | src/git/walk.rs:305-329 | an insertion-ordered set lists each id once, by first occurrence |
| OrderedSets.KeptAt | src/git/walk.rs:581-586 | a filtered list keeps the order: a kept id comes after exactly the kept ones before it |
| CommitDiscovery.PrefetchRecords | src/git/walk.rs:1211-1234 | the cache gains exactly the resolvable ids; the uncached ids are reported once each, in first-seen order, with their own lookup results |
| CommitDiscovery.NeverStalls | src/git/walk.rs:613-624 | for any generation numbers, a pending want means a non-empty frontier, so `DiscoveryStalled` is unreachable |
| CommitDiscovery.VisitKeeps | src/git/walk.rs:658-677 | visiting a commit keeps the walk invariant: marks justified by reachability, unvisited marks queued, sent list exact, nothing sent twice |
| CommitDiscovery.DrainKeeps | src/git/walk.rs:627-644 | draining a level keeps the walk invariant, the descending order included |
| CommitDiscovery.WantedIsNew | src/git/walk.rs:193-198 | with true generations a commit visited as WANT is not reachable from any have |
| CommitDiscovery.Covered | src/git/walk.rs:226-232 | for any generations and any order of visits, when nothing is pending every wanted ancestor is sent or reachable from a have |
| CommitDiscovery.NothingLeft | src/git/walk.rs:680-685 | without a recognised have the frontier is empty when nothing is pending |
| CommitDiscovery.VisitedIs | src/git/walk.rs:193-211 | with true generations a walk at a level has visited exactly the reachable commits at that level and above |
| CommitDiscovery.PendingIff | src/git/walk.rs:605-613 | with true generations nothing is pending if and only if whatever the graph shows as wanted below the level it also shows as had |
| CommitDiscovery.AllVisited | src/git/walk.rs:680-685 | for any generations an empty frontier means that all ancestry of wants and haves was visited |
| CommitDiscovery.LeftIffStopped | src/git/walk.rs:680-685 | with true generations the frontier is left non-empty if and only if some level is settled with ancestry below it |
| CommitDiscovery.VisitTopLevel | src/git/walk.rs:627-677 | one level keeps the invariant and decreases the measure: marks left, downgrades left, queue size |
| CommitDiscovery.Discover | src/git/walk.rs:605-685 | terminates for any generations; the sent list satisfies the discovery promise; an error names a reachable unresolved commit; `boundedByHaves` false means all ancestry was explored, and with true generations it is true if and only if some level is settled with ancestry below it, the first such level being where the walk stops |
| CommitDiscovery.SelectionDetermined | src/git/walk.rs:193-211 | with true generations the promise fixes the list: exactly wants minus haves, in one strictly decreasing order |
| EntryWalk.PoppedIsNew | src/git/walk.rs:193-198 | popping one entry at a time, a commit still wanted when it comes to the top is under no have |
| EntryWalk.VisitKeepsSweep | src/git/walk.rs:562-565 | visiting the top entry's commit keeps the entry-by-entry invariant: nothing queued is above anything visited |
| EntryWalk.DiscoverByEntry | src/git/walk.rs:562-565 | the entry-by-entry walk terminates for any generations and meets the same promise |
| EntryWalk.WalksAgree | src/git/walk.rs:556-565 | from the same marks, with true generations, both walks send the same list whenever both succeed, which they do when every reachable commit has a record; a failure names a reachable unresolved commit |
| CommitDiscovery.DecreasingUnique | src/git/walk.rs:205-211 | two strictly decreasing listings of one set are equal |
| CommitDiscovery.MarkHaves | src/git/walk.rs:577-591 | recognises exactly the haves with a record, in first-seen order; succeeds exactly when every other lookup names the have itself as missing or as no commit, and else fails at the first have whose failure lies below it |
| CommitDiscovery.MarkWants | src/git/walk.rs:593-599 | marks exactly the peeled wants that are not haves, in first-seen order; an error is that of the first unresolved want |
| WantSelection.PeelWant | src/git/walk.rs:843-871 | succeeds exactly when the tag chain leads object by object to a commit; each of the three failures is where the chain ends |
| WantSelection.PeelWants | src/git/walk.rs:817-838 | targets in want order at the ends of their tag chains, tags in first-seen order over the chains, all within the closure of the wants; the error is that of the first want that cannot be served |
| WantSelection.ChainsMeet | src/git/walk.rs:843-871 | two tag chains from one want that stop being tags are the same chain |
| WantSelection.BlockedIsNotServed | src/git/walk.rs:843-871 | a chain that ends badly excludes every chain to a commit |
| WantSelection.TargetsAre | src/git/walk.rs:817-838 | the targets found are exactly the commits at the ends of the wants' tag chains |
| WantSelection.SelectCommits | src/git/walk.rs:568-693 | the send list is discovered commits, then tags; `common` is exactly the recognised haves; `boundedByHaves` has its exact condition over targets and recognised haves; an error is that of the first unservable want, a faulty have, or an unresolved commit below the wants' targets and recognised haves, and never a stall; it succeeds only if every want is servable and no have is faulty |
| Collection.ReadTrees | src/git/walk.rs:1139-1188 | entries aligned with the ids read, or the error of the first id that is absent or not a tree |
| Collection.ExpandHaves | src/git/walk.rs:976-1012 | the have-set is exactly the trees and, unless blobs are filtered out, blobs reachable from the haves' root trees; terminates on shared subtrees |
| Collection.HavesComplete | src/git/walk.rs:976-1012 | closing every open tree makes the have-set equal to reachability, in both directions |
| Collection.ScanTree | src/git/walk.rs:1050-1086 | new subtrees are collected and opened in entry order; new leaves become candidates in entry order |
| CollectionOrder.ScanContinues | src/git/walk.rs:1046-1087 | scanning tree after tree is scanning the level's entries as one list |
| CollectionOrder.LevelOrderStep | src/git/walk.rs:1014-1020 | one level appends its new subtrees, then its admitted blobs, and the new subtrees are the next level |
| BreadthFirst.TreeOrderIsBreadthFirst | src/git/walk.rs:1014-1020 | among the trees one commit adds, one reached by fewer steps through unpruned trees is listed earlier |
| Collection.AdmitBlobs | src/git/walk.rs:1100-1134 | exactly the candidates the filter admits are added, in candidate order; a size filter fails at the first blob without a record |
| Collection.WalkLevel | src/git/walk.rs:1041-1091 | one level: contents, order and invariant, or the object that cannot be read |
| Collection.WalkTree | src/git/walk.rs:1027-1093 | one commit's walk, pruned at had and collected trees, appends its objects breadth first and keeps the collection invariant for the enlarged set of roots |
| Collection.WantComplete | src/git/walk.rs:1014-1093 | despite pruning, the result is exactly the base and every tree and admitted blob under the roots that is not under a have's root |
| Collection.ListedAsLeafNotOpened | src/git/walk.rs:1050-1086 | a tree first named as a leaf is listed and never opened, so a blob below the root is missed |
| FetchPlan.HaveTrees | src/git/walk.rs:745-757 | the root trees of exactly the recognised haves |
| FetchPlan.Classify | src/git/walk.rs:762-772 | succeeds exactly when everything sent exists, and lists the commits in send order; otherwise names the first missing id |
| FetchPlan.CollectOne | src/git/walk.rs:779-803 | one element of the send list: a commit and then its objects, a tag, or an error for anything else |
| FetchPlan.Collect | src/git/walk.rs:738-808 | for each filter, without duplicates, exactly the sent objects plus what their root trees reach beyond the haves, in send order and breadth first below each commit; every failure has a cause |
| FetchPlan.ClosureHolds | src/git/walk.rs:1022-1025 | parents, trees and blobs reached by the walks lie in the object closure |
| FetchPlan.FetchCompletes | src/git/walk.rs:226-232 | for any generations and any filter: closure of the haves plus the result contains the closure of every want, up to the blobs the filter withholds (none, all, or those larger than the limit) |
| FetchPlan.NothingWithheldIsSent | src/git/walk.rs:1100-1134 | no blob the filter withholds is collected |
| FetchPlan.OnlyWanted | src/git/walk.rs:695-712 | under any filter, nothing outside the closure of the wants is collected |
| ObjectPlan.PartitionWants | src/git/walk.rs:378-392 | history wants in want order, direct wants in first-seen order; fails exactly at the first absent want |
| ObjectPlan.PlanObjects | src/protocol/upload_pack.rs:354-387 | the planned objects and their order: the collected list of a walk fixed by wants, haves and filter, then the direct wants not in it; no duplicates, nothing unwanted, recognised haves reported in order; history complete up to the filter, and nothing withheld but direct wants; every failure names an absent want, an unservable want, a faulty have, or damage below them, a plan is made only if every want is there and servable and every have known or merely unknown, and a healthy request never fails |
| ObjectPlan.PlanNeverStalls | src/git/walk.rs:613-624 | no cause of a failed plan is a stalled walk |
| ObjectPlan.CollectionCause | src/git/walk.rs:738-808 | what stops collection lies below the root tree of a commit the walk reached from the wants' targets and recognised haves |
| ObjectPlan.HealthyHasNoCause | src/protocol/upload_pack.rs:354-387 | if every want is servable, every have known or merely unknown, and everything below is stored with its records, no cause of failure applies |
| FetchService.PlanPack | src/protocol/upload_pack.rs:344-401 | the whole plan, scheduled plainly or grouped for offset deltas: the objects of that plan, each once, in its order or with groups contiguous, history complete up to the filter; a healthy request is always planned |
| FetchService.FeedObjects | src/protocol/upload_pack.rs:517-595 | entries in schedule order, up to the first object without a record |
| FetchService.EntriesDeliver | src/protocol/upload_pack.rs:597-600 | every entry of the written pack decodes to the content of the object it names |
| FetchService.ServeFetch | src/protocol/upload_pack.rs:344-401 | plan, schedule, feed, write, decode: each entry decodes to a wanted object's content, each planned object once, in plan order unless grouped, direct wants included; the pack holds everything below the wanted commits and tags that is neither below the haves nor withheld by the filter; a healthy request gets a pack |
| PackSchedule.HashIsPathValue | src/protocol/upload_pack.rs:480-487 | the path hash is the path read as a base-33 number whose last byte is the most significant digit, modulo 2^32 |
| PackSchedule.SuffixDecides | src/protocol/upload_pack.rs:480-487 | under one leading part, two paths share a group if and only if what follows hashes alike: a leading part neither makes nor breaks a collision |
| PackSchedule.SplitCollected | src/protocol/upload_pack.rs:431-456 | collected objects are split without loss; ungrouped ones keep their order |
| PackSchedule.SortBlobs | src/protocol/upload_pack.rs:457-463 | the blobs are permuted into strict order by hash, path, size, position |
| PackSchedule.LexIsFirstDifference | src/protocol/upload_pack.rs:457-463 | paths compare by the first byte at which they differ, a proper prefix first |
| PackSchedule.OrderMeans | src/protocol/upload_pack.rs:457-463 | sorted blobs go up by hash, then bytewise by path, then by size, then as collected |
| PackSchedule.ScheduleForOfs | src/protocol/upload_pack.rs:421-478 | a permutation of the collected objects: ungrouped ones first in walk order, then the sorted blobs; an object is grouped if and only if it is a blob found under a path, by that path's hash, and every group is contiguous; fails exactly when a collected object is absent, naming the first |
| CommitGraphRecords.DepthBoundsPaths | src/git/walk.rs:352-356 | no parent path from a commit is longer than its generation |
| CommitGraphRecords.DepthIsAPath | src/git/walk.rs:352-356 | some parent path is exactly as long as its generation |
| CommitGraphRecords.TrueRecordDescribes | src/git/walk.rs:924-931 | a true record holds the commit's own tree, all its parents in order and the length of its longest parent path |
| CommitGraphRecords.SoundRecordsServe | src/git/walk.rs:193-198 | sound records give fetches both the truth about trees and parents and descending generations |
| CommitGraphRecords.SoundRecordsDescend | src/git/walk.rs:193-198 | sound records give discovery the decreasing generations its exactness needs |
| CommitGraphRecords.TopParentsResolved | src/git/walk.rs:873-876 | a commit expanded once finds all its parents resolved when it is back on top, which is why duplicate stack entries do no harm |
| CommitGraphRecords.GraphStore.ReadTop | src/git/walk.rs:898-942 | one read of a backfill: a stored record is taken, else the commit is recorded from its parents or expanded |
| CommitGraphRecords.TargetReads | src/git/walk.rs:893-943 | each read leaves it settled where the target stands: not read, expanded, or resolved by whoever was first |
| CommitGraphRecords.GraphStore.Backfill | src/git/walk.rs:882-946 | from sound or missing records, every written record is its commit's tree, parents and longest-path depth, none is lost, and whatever was written here has its parents recorded; apart from ancestors that cannot be read, the target's record is returned exactly when nobody else had recorded it by its own turn |
| CommitGraphRecords.GraphStore.GetCommitInfo | src/git/walk.rs:357-363 | returns the commit's own tree, parents and longest-path depth, stored or backfilled; apart from ancestors that cannot be read, fails exactly when the record was missing and somebody else had written it by its turn |
| CommitGraphRecords.GraphStore.LookupLosesRace | src/git/walk.rs:1205-1234 | a lookup whose commit another lookup of the batch records by its turn reports a whole commit as missing, the error a have is dropped for |
| CommitGraphRecords.GraphStore.RebuildFrom | src/git/walk.rs:450-494 | one root's ancestry is resolved without consulting any record, terminating on diamonds |
| CommitGraphRecords.GraphStore.Rebuild | src/git/walk.rs:430-498 | over arbitrary stored records, every commit reachable from a root gets a record of its own tree, parents and longest-path depth, all others are untouched, the count is the number of such commits; also on failure only true records of reachable commits were written |
| CommitGraphRecords.RebuildComplete | src/git/walk.rs:430-498 | the resolved commits are exactly the reachable ones |
| CommitGraphRecords.GraphStore.MaxParentGeneration | src/git/promote.rs:185-189 | the greatest longest-path depth among the parents, backfilling soundly; a failure belongs to one parent |
| CommitGraphRecords.GraphStore.ExtendGraph | src/git/promote.rs:174-202 | promotion records each new commit's own tree, parents and longest-path depth, ancestors first, keeping all other records; failures are traced to a parent |
| Promotion.StepKeeps | src/git/promote.rs:259-290 | one step of the stack walk keeps children-first order and that everything settled is stored, listed or waiting |
| Promotion.StoreGrowthKeeps | src/git/promote.rs:265-270 | the walk's invariant survives other pushes storing objects meanwhile |
| Promotion.WalkComplete | src/git/promote.rs:236-238 | the finished list is exactly the reachable objects the store lacks |
| Promotion.Validate | src/git/promote.rs:239-293 | accepts exactly when every object reached through uncommitted objects is stored or staged; lists exactly the missing ones once, children first; a rejection names an unresolved reference and its referrer |
| Promotion.OfKindFirst | src/git/promote.rs:120-122 | one kind's part of a children-first list stays children first once earlier kinds are written |
| Promotion.WriteOrderFirstIff | src/git/promote.rs:105-107 | blobs, trees, commits, tags: regrouping keeps children first if and only if no reference goes to an unstored object of a later kind |
| Promotion.MisnamedLeafBreaksPrefix | src/git/promote.rs:300-313 | a tree whose leaf entry names a commit, and the write prefix that is then not closed |
| Promotion.ValidateMisnamed | src/git/promote.rs:239-293 | validation accepts that tree and lists it in the order whose regrouping breaks |
| Promotion.WriteOrderFirst | src/git/promote.rs:105-107 | agreeing kinds are enough for regrouping to keep children first |
| Promotion.WriteOrderPermutes | src/git/promote.rs:123-134 | regrouping drops and repeats nothing |
| Promotion.GroupByKind | src/git/promote.rs:123-134 | the grouping loop computes that write order |
| Promotion.WritePrefixClosed | src/git/promote.rs:208-216 | after every single write the store still holds the closure of everything in it |
| PushProtocol.WriteOk | src/storage/objectdb.rs:81-123 | check, blob upload and record append of one object keep every log prefix consistent |
| PushProtocol.RefsAppended | src/storage/store.rs:639-712 | a committed ref batch leaves direct refs only at stored objects |
| PushProtocol.NextKeeps | src/git/promote.rs:108-217 | every step of every push, a crash and a concurrent backfill keep the protocol invariant and the durable prefix |
| PushProtocol.PushesAreCrashSafe | src/git/promote.rs:204-216 | over every run of concurrent pushes with crashes, in every log prefix: closures complete, exactly the blobs above the inline threshold are pointers and have content, refs and graph records name stored objects |
| PushProtocol.AcknowledgedSurvives | src/protocol/receive_pack.rs:88-124 | an answered ref batch is in the log for good, through any later crash, and is what its commands, one by one with the outcomes reported, did to the refs before it |
| PushProtocol.AnsweredIsOnRecord | src/protocol/receive_pack.rs:88-124 | a push is answered with the outcomes of its own commands |
| PushProtocol.PromotedIsDurable | src/git/promote.rs:204-216 | before a push touches a ref, everything its tips reach is durable |
| PushProtocol.PushedCommitsRecorded | src/git/promote.rs:168-202 | once a push has extended the graph, every commit its tips reach has a graph record or was stored before the push began to write |
| RefTransactions.ReadStepsApply | src/storage/store.rs:649-681 | reading through the transaction's own writes computes the one-by-one specification, repeated names included, and so executes the commands |
| RefTransactions.ApplyAllExecutes | src/storage/store.rs:649-681 | each command, from the refs the ones before it left: updated if and only if the ref is absent as expected or a direct ref to exactly the expected id, rejected as symbolic if and only if it is symbolic, rejected otherwise; an update sets or deletes the ref, a rejection changes nothing, no other ref changes |
| RefTransactions.ExecutesUnique | src/storage/store.rs:649-681 | those rules determine every outcome and the resulting refs |
| RefTransactions.UnnamedKept | src/storage/store.rs:646-681 | refs no command names keep their value |
| RefTransactions.ReadStepsLocal | src/storage/store.rs:646-681 | what a transaction computes depends only on the refs it read |
| RefTransactions.RunCommands | src/storage/store.rs:644-681 | the attempt loop's writes and outcomes execute the commands in order, by the rules of `ApplyAllExecutes`, on any refs that agree on the names read |
| RefTransactions.NextKeeps | src/storage/store.rs:644-711 | begin, read, commit, conflict, return, and failure or cancellation before and after the commit keep the linearization invariant |
| RefTransactions.UpdateRefsLinearizable | src/storage/store.rs:634-712 | over all interleavings each returned call executed its commands at one version of its span, with the outcomes it returned, and every change is one call's commands applied once, its answer delivered or lost; no call makes more than two attempts |
| RefTransactions.EachVersionIsOneCall | src/storage/store.rs:683-684 | from each version to the next the refs change by executing the commands of one call |
| RefTransactions.WritesAtMostOnce | src/storage/store.rs:683-709 | a call wrote a version exactly when it applied its commands there; one that exhausted its retries, failed earlier or has not applied wrote none |
| RefTransactions.LostCallCanHaveWritten | src/storage/store.rs:683 | a run in which a call lost while waiting for its commit created a ref |
| RepoRegistry.NextKeeps | src/storage/store.rs:439-496 | each step, a creator lost after its commit included, keeps ids distinct and below the counter; a change is an atomic get-or-create |
| RepoRegistry.RunKeeps | src/storage/store.rs:430-498 | over all interleavings of creators the registry invariant holds |
| RepoRegistry.MappingStays | src/storage/store.rs:442-447 | a name's id, once mapped, never changes |
| RepoRegistry.CreatorsAgree | src/storage/store.rs:423-498 | two successful callers have one id exactly when they asked for one name; ids are non-zero and below the counter |
| DeltaFormat.EncodeSize | src/git/pack_out.rs:542-554 | appends the varint that `SizeRoundTrip` decodes |
| DeltaFormat.SizeRoundTrip | src/git/pack_out.rs:541-554 | decoding an encoded size gives it back and leaves what follows |
| DeltaFormat.AppendInsert | src/git/pack_out.rs:557-565 | appends the literal instructions that `DecodeInserts` decodes |
| DeltaFormat.DecodeInserts | src/git/pack_out.rs:556-565 | literals split at 127 bytes decode to the bytes, then to what follows |
| DeltaFormat.AppendCopy | src/git/pack_out.rs:569-595 | appends the copy instructions that `DecodeCopies` decodes |
| DeltaFormat.FieldRoundTrip | src/git/pack_out.rs:574-589 | little-endian fields with omitted zero bytes decode to their value |
| DeltaFormat.CopyRoundTrip | src/git/pack_out.rs:571-591 | one copy decodes to its offset and size, 64 KiB written as zero included |
| DeltaFormat.DecodeCopies | src/git/pack_out.rs:567-595 | a long copy split at 64 KiB decodes to the base's bytes, then to what follows |
| BlockIndexing.HashIsPolynomial | src/git/pack_out.rs:526-530 | the wrapping Horner fold is the window's polynomial modulo 2^64 |
| BlockIndexing.RollIsHash | src/git/pack_out.rs:532-539 | rolling one byte equals hashing the shifted window afresh |
| BlockIndexing.ProbeInBounds | src/git/pack_out.rs:434-457 | every probe window lies inside the slots |
| BlockIndexing.BlockIndex.Insert | src/git/pack_out.rs:463-480 | fills the first free slot of the window unless the tag has its quota before it; nothing else changes |
| BlockIndexing.InsertIndexes | src/git/pack_out.rs:459-480 | every entry keeps naming a real base block with its tag |
| BlockIndexing.HomeCount | src/git/pack_out.rs:487-492 | the least power of two that is at least four times the block count and a probe window |
| BlockIndexing.BuildIndex | src/git/pack_out.rs:486-500 | builds the index of the base |
| BlockIndexing.IndexOfOk | src/git/pack_out.rs:483-500 | that index is sound and always holds the first block |
| BlockQuota.FingerprintQuota | src/git/pack_out.rs:459-480 | the index of a base holds at most four offsets of any one fingerprint, over all probe windows |
| BlockQuota.TagOverQuota | src/git/pack_out.rs:459-480 | a base whose index has five offsets of one tag in one probe window |
| DeltaEncoder.FirstDifferingByte | src/git/pack_out.rs:509-513 | trailing zeros of the exclusive or, divided by eight, is the common prefix of two words |
| DeltaEncoder.CommonPrefix | src/git/pack_out.rs:505-520 | the true longest common prefix |
| DeltaEncoder.BestAtVerified | src/git/pack_out.rs:396-408 | a match found by fingerprint is a run of equal bytes inside base and target, at least 16 long |
| DeltaEncoder.BestIsFirstLongest | src/git/pack_out.rs:396-408 | the fold over the window yields the longest run of at least 16 bytes among the nominated entries, the first if several are longest, and nothing exactly when no run is long enough |
| DeltaEncoder.FindMatch | src/git/pack_out.rs:391-408 | nominate-then-verify returns that first longest match |
| DeltaEncoder.TailLonger | src/git/pack_out.rs:380-384 | pending literals cost at least a byte each, so the early exit loses nothing |
| DeltaEncoder.TailDecodes | src/git/pack_out.rs:379-424 | from any scan position the remaining instructions decode to the remaining target |
| DeltaEncoder.DeltaDecodes | src/git/pack_out.rs:363-426 | for every base and target, git's decoder applied to the stream gives the target |
| DeltaEncoder.MakeDelta | src/git/pack_out.rs:370-426 | rolling and budgeted, returns exactly the fresh-hash, budget-free stream when that fits, and nothing otherwise |
| DeltaEncoder.EqualContentIsCopies | src/git/pack_out.rs:396-424 | a target equal to its base is copies only |
| PackWriter.DeltaCandidates.Insert | src/git/pack_out.rs:268-286 | at most 8 entries and 8 MiB with an exact byte count; keeps the newest that fit |
| PackWriter.FittingFits | src/git/pack_out.rs:272-278 | oldest-first eviction always makes room |
| PackWriter.FittingMaximal | src/git/pack_out.rs:272-278 | no candidate is evicted that could have stayed |
| PackWriter.ChooseBase | src/git/pack_out.rs:314-334 | the tightening budget picks the first shortest delta of at most half the target among all candidates of the group |
| PackWriter.DeltaOrFull | src/git/pack_out.rs:293-361 | a delta rebuilds the blob from an earlier full entry of its group and saves more than 32 bytes; only full blobs become bases |
| PackWriter.WritePack | src/git/pack_out.rs:185-232 | every entry is the object in full or a faithful delta, in input order, chosen by the plan that `PlanDetermined` shows to be unique; exact failures |
| PackWriter.FirstShortestUnique | src/git/pack_out.rs:314-334 | there is one first shortest delta among the candidates |
| PackWriter.PlanDetermined | src/git/pack_out.rs:289-361 | the stepwise rules determine every entry and every candidate cache of a pack |
| PackWriter.WorthIsTaken | src/git/pack_out.rs:314-350 | a delta of at most half the body that would save more than 32 bytes is not passed over, and no candidate gives a shorter one |
| PackWriter.DeltaIsSmall | src/git/pack_out.rs:293-350 | only grouped blobs of 512 bytes to 2 MiB become deltas, of at most half their size and saving more than 32 bytes |
| PackWriter.FullIsNewestBase | src/git/pack_out.rs:351-361 | a considered blob written in full is the newest candidate for what follows |
| PackWriter.PackDecodes | src/git/pack_out.rs:173-182 | decoding the entry list gives back every input object; chains have depth one |
| PartCache.PrefetchAligned | src/storage/part_cache/cached_store.rs:274-284 | the aligned request has an aligned answer if and only if the request is not a misaligned suffix |
| PartCache.SuffixCounterexample | src/storage/part_cache/cached_store.rs:495-498 | a concrete suffix request whose aligned form starts inside a part |
| PartCache.AlignedServes | src/storage/part_cache/cached_store.rs:489-514 | a range that can be served is also served in aligned form, by at least as much |
| PartCache.CutIsSound | src/storage/part_cache/cached_store.rs:327-337 | cutting an aligned stretch at part boundaries gives parts of the object |
| PartCache.SavePartsStream | src/storage/part_cache/cached_store.rs:309-340 | the saved parts depend on the delivered bytes only, not on their chunking; a broken stream saves whole parts only |
| PartCache.SavedSubset | src/storage/part_cache/cached_store.rs:322-332 | what a broken stream saved, the complete one would have saved too |
| PartCache.SavedWhich | src/storage/part_cache/cached_store.rs:322-337 | exactly the parts the delivered bytes complete are saved, and the short last one if the stream ended |
| PartCache.SplitRange | src/storage/part_cache/cached_store.rs:343-373 | one slice per part touched, trimmed at both ends |
| PartCache.SliceCovers | src/storage/part_cache/cached_store.rs:343-373 | the slices tile the range: each covers exactly its stretch of the object |
| PartCache.CachedObject.ReadPart | src/storage/part_cache/cached_store.rs:382-435 | returns the slice of the object, from cache or upstream, and leaves that part cached and every other as it was |
| PartCache.CachedObject.MaybePrefetch | src/storage/part_cache/cached_store.rs:215-304 | keeps the cache sound and what it holds; caches the size and every part the response delivered of the aligned stretch; fails the alignment assertion exactly on an uncached misaligned suffix |
| PartCache.CachedObject.CachedGet | src/storage/part_cache/cached_store.rs:126-170 | for any cached subset and evictions between steps: the bytes from start to end or to the object's end, from the offset, the last so many, or all, as asked; fails exactly for an empty or out-of-range start |
| CacheEvictor.Evictor.RemoveEntry | src/storage/part_cache/storage_fs.rs:689-701 | swap-remove forgets exactly one file and keeps keys and entries in bijection with exact indices |
| CacheEvictor.Evictor.PickAvailableIndex | src/storage/part_cache/storage_fs.rs:1030-1053 | an index that is free and not excluded, or none exactly when there is none |
| CacheEvictor.Evictor.PickPair | src/storage/part_cache/storage_fs.rs:981-1018 | any two free files, the one accessed no later first |
| CacheEvictor.PickOlder | src/storage/part_cache/storage_fs.rs:1013-1022 | taking the older of two leaves every target outlived by a file accessed no earlier |
| CacheEvictor.PicksAreGood | src/storage/part_cache/storage_fs.rs:974-1023 | whatever the loop builds is distinct, outlived, and taken only while over the target size |
| CacheEvictor.PicksFinish | src/storage/part_cache/storage_fs.rs:974-1023 | every list the loop can build is the beginning of one it can return |
| CacheEvictor.Evictor.PickEvictTargets | src/storage/part_cache/storage_fs.rs:958-1026 | returns, for any random picks, a list built by the loop's rounds with no round left to make; hence distinct targets, each outlived, each picked while still over the target size, until the rest fits or one file is left |
| CacheEvictor.SafeIffNewest | src/storage/part_cache/storage_fs.rs:833-834 | no run of the picking loop takes a file if and only if the cache is within the target size or the file was accessed strictly later than all others |
| CacheEvictor.AccessedCanBeEvicted | src/storage/part_cache/storage_fs.rs:833-834 | a concrete access whose own file the eviction can take |
| CacheEvictor.Evictor.EvictToTargetSize | src/storage/part_cache/storage_fs.rs:851-925 | whatever removals fail, accounting stays exact and only removed files are forgotten; if none fails the rest fits or one file is left |
| CacheEvictor.Evictor.Track | src/storage/part_cache/storage_fs.rs:793-816 | a known file gets the new access time and keeps its size, an unknown one is counted with both, no other file changes; the counter stays the sum of tracked sizes |
| CacheEvictor.Evictor.TrackEntryAccessed | src/storage/part_cache/storage_fs.rs:784-846 | evicts only when asked to and over the limit, and then down to nine tenths of it |
| CacheEvictor.EvictionFits | src/storage/part_cache/storage_fs.rs:829-841 | after an eviction without failures the total is at most nine tenths of the limit or one file is left |
| CacheEvictor.EvictionStops | src/storage/part_cache/storage_fs.rs:829-841 | an eviction that forgot files could not have kept one of them within nine tenths of the limit |
| CacheEvictor.AccessedStays | src/storage/part_cache/storage_fs.rs:833-834 | the strictly newest file survives the eviction it triggers; the cache never empties |
| CacheEvictor.Evictor.DeleteEntry | src/storage/part_cache/storage_fs.rs:927-952 | forgets exactly the deleted files, counter included |
| SingleFlight.Group.Join | src/storage/part_cache/single_flight.rs:82-104 | under the lock: share the mapped cell or insert a fresh one, reference counts included |
| SingleFlight.Group.Release | src/storage/part_cache/single_flight.rs:33-45 | under the lock: give up the reference, then remove the key when only the map refers to the cell |
| SingleFlight.JoinKeeps | src/storage/part_cache/single_flight.rs:82-104 | entering keeps reference counts equal to the live guards plus the map, and every guard's cell the mapped one |
| SingleFlight.ReleaseKeeps | src/storage/part_cache/single_flight.rs:33-45 | the count test removes the key exactly when no other guard holds the cell |
| SingleFlight.NextKeeps | src/storage/part_cache/single_flight.rs:76-118 | every step, cancellation included, keeps the invariant and never changes a recorded value or result |
| SingleFlight.OneProducerPerKey | src/storage/part_cache/single_flight.rs:48-49 | over every run a key is mapped exactly while a guard for it lives, and at most one producer runs per key |
| SingleFlight.OverlappingCallsAgree | src/storage/part_cache/single_flight.rs:73-75 | two calls for one key that were ever live together return one value, whenever they succeed |
| SingleFlight.LonelyCallStartsAfresh | src/storage/part_cache/single_flight.rs:19-22 | a call that meets no live call for its key gets a cell no call has used, without value or permit |
| SingleFlight.WaitersProgress | src/storage/part_cache/single_flight.rs:106-116 | no waiter is stuck: it can read the value, win the permit, or a producer for its cell is running |
| SingleFlight.GuardsCanDrop | src/storage/part_cache/single_flight.rs:33-45 | a guard that runs no producer can always be dropped, its reference being counted |

## Left out

- HTTP routing, advertisements, request parsing, pkt-line and side-band framing, configuration, error classes, telemetry and statistics: plumbing around the modelled operations.
- Pack ingestion: a staged pack is a finite map from id to decoded object; zlib, SHA and object parsing are abstract, so decode errors and the pack header, trailer and checksum do not occur.
- Key and value codecs of the store, and the codec side of `ObjectDb::get`, `size` and `read_compressed`: flat round trips.
- Blob path recording in `walk_tree`: the paths are an input of the schedule, so which of several paths a blob gets is not modelled; the results about schedules and packs hold for any paths.
- Ref resolution for the graph rebuild (symref chains and tag peeling up to depth five): the resolved root commits are an input.
- Filter parsing, negotiation text, warming, directory scans, file handles, clocks and the random source; a random pick is any free index, a file removal any of its three outcomes.
- The concurrency width of batched lookups: discovery consumes results in input order, so there a batch is a sequence of lookups with fixed answers; what a lookup answers when another one backfills meanwhile is `LookupLosesRace`.
- Integer widths outside the hash and the index: generations, counters and sizes are unbounded, under the bounds listed above. The eviction target is computed over the reals, without floating-point rounding.
- `update_refs`, `create_repo`, the push protocol and the single-flight calls are state machines over values, because their results are about interleavings; update in place appears there only in `RunCommands` and `SingleFlight.Group`. A call's commit is one step and its answer another, so a call can be lost between them.
- Transient failures of the object store during part reads, `cached_put_opts` and `cached_head`: the read either returns the part or the call does not return.
- EntryWalk.WalksAgree: compares the lists of walks that succeed; the walk by levels reads the parents of a whole level and so can meet an unresolved commit that the walk by entries stops short of.
