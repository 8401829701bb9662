# Verified model of the quorum store and the log file system

This project models the two systems of the repository in Dafny 4.11 and proves what they are for.
`dafny verify dfyconfig.toml` checks everything.

## The quorum-voting key/value store (Client.c, Server.c, Util.c)

A PUT asks N servers to lock a key and vote with their version, takes the most frequent version,
and writes `(version + 1, value)` to every voter. A GET takes the most frequent value among the
answers of the highest version. Liars alter the value they send to a GET by appending `lie`, and
add 10 to the version they vote with.

* `Ballots`: plurality choice, stated declaratively (`Wins`: the smallest index whose label is
  most frequent), and when a bucket table computes it.
* `Replies`, `SelectServer`: the answers of a round, and `selectServer` as it is written, on a
  fixed table of buckets that is filled in place. It is proved to compute `Wins` and to report
  exactly the servers the declarative report names.
* `AtomicStore`: PUTs and GETs as single steps on N replicas, with liars. The invariant is
  `Current`: at least `nw` replicas hold the one latest version and value, all others are older.
* `QuorumCondition`: exactly which configurations make reads fresh.
* `Cluster`, `ClusterRuns`: any number of concurrent PUTs, one message at one server at a time,
  proved to be a sequence of atomic PUTs in the order in which the clients decide, and GETs whose
  answers are sent at different moments of such a run.
* `OutnumberedGet`: a run in which one liar decides a GET.
* `ClusterCompleteness`: every legal sequence of atomic PUTs is what some concurrent run does.
* `ServerTable`: one server's table and the handler segments that change it, tied to the steps
  of `Cluster`.
* `SpinLock`: the compare-and-swap lock, slot allocation under it, and the atomic counters, for any
  number of threads and any interleaving of single memory accesses.

The protocol model assumes what the code needs: the key exists on every server; a handler runs from
one network wait to the next without interruption (the commented-out `condWaitLock` calls meant
to ensure this); updates to the voters of a decided client are not lost, and no handler times out on
a client that counts its vote. A server may refuse, stay silent or lose a vote at any time, a client
may give up while it collects votes, and the table records no owner of a lock: that locks are
exclusive is proved, not assumed.

### Where the code and its promises differ

* **Quorum test.** Client.c:419 accepts every `Nr + Nw > N` with `Nw > N / 2`. This does not make reads
  fresh, because the client takes the most frequent version and not the highest. Among accepted
  configurations with `Nr <= N`, reads are always fresh if and only if `3 * Nw > 2 * N`
  (`QuorumConditionIsExact`). For every other one, `StaleRun` is a run of three PUTs after which a
  GET that hears every server returns the second value. The scripts' 6/6/5 is safe.
* **Getter counter.** Server.c:92 lowers `numGetters` also for a GET that was refused because the key is
  locked. An unlocked key grants a PUT exactly when as many GETs stand between their two accesses to
  the counter as have ever met the lock (`GrantsWhenGetsBalance`). So after one such GET no PUT of the
  key is granted at any moment when no GET is inside; only a GET that has raised the counter
  (Server.c:67) and not yet lowered it can let one in (`OnlyGetsInsideLetPutsIn`, `OneGetUnderLock`).
* **New keys.** A PUT of a new key that gets no update leaves a slot that has no name, so its lock is never
  released (`PutResponse`).
* **Metadata without paths.** A record with no chunk path prints an empty path list, which the parser
  cannot read. So a file that has never been flushed cannot be reloaded once its record is evicted,
  unless the bytes behind the text happen to contain a word (`ParseAfterPrint`,
  `EvictionKeepsRecord`, `FreshFileIsUnreadable`).
* **New files.** `lfs_mknod` takes a block without writing its record back (lfs_fuse.c:249). That loses
  a change that was not written through (`NewFileDropsChange`); as built, with write-through, none is
  lost (`WriteThroughDropsClean`).
* **Flush of whole lines.** Cache.c:410 tests the buffer after Cache.c:409 has cleared it, so the last line
  scanned is always carried over. A flush keeps all bytes once, in order, if and only if the buffer
  ends in an unfinished line behind complete stamped ones (`FlushConserves`); a buffer that ends
  exactly on a line has its last line written twice (`FlushRepeatsLastLine`, `OneLineIsRepeated`).
* **Flush of one unfinished line.** The code does not look for the newline of the first line (Cache.c:322-329), so a
  buffer that is one unfinished stamped line is written with its terminating NUL and carried over as well
  (`LoneLineIsDoubled`). The text that forced such a flush does not fit behind the kept line either, so
  no run that stays within its block meets one (`FittingFlushesFindLines`), and in every such run a read
  is whole (`ReadIsWhole`). A run does stay within its block when every text leaves room for the longest
  line of the log (`ShortLinesFit`); the code itself checks this nowhere. A read whose `strcat`
  (lfs_fuse.c:456) lands inside a chunk needs a run that has already written beyond its block, or the
  flush of an evicted block (lfs_fuse.c:522-524), which is not part of this model.
* **Time zones.** A chunk's name leaves the zone out (`ZoneIsNotNamed`). Chunk files in path order and then
  the buffer are the log if and only if no chunk name comes back after another one
  (`StoreIsLogExactly`). That holds when the local times of the log never go backwards
  (`OrderedLogNeverRecurs`), but not in the hour that is repeated when the clocks go back: a log with
  lines at 01:30:00 EDT, 01:45:00 EDT and 01:30:00 EST is stored out of order, in a block of any size above
  96 bytes and with every buffer inside it (`RepeatedHourIsReordered`).

## The log file system (Cache.c, lfs_fuse.c)

* `Lru`: counters updated modulo the number of blocks are positions in a move-to-front list.
* `Metadata`: the metadata printer and the `sscanf`-based parser.
* `MetaCache`: the cache of metadata records over both: what it holds, and exactly when it is invisible,
  for runs of lookups, in-place changes and new files.
* `Flush`: how `write_buffer_to_disk` cuts a buffer into pieces of one date.
* `LogStore`, `ChunkOrder`: the chunk files that any sequence of pieces makes, and when they hold the pieces
  in writing order.
* `LogTime`, `LogDays`: timestamps in the log's own format, ordered by calendar and clock; a flush cuts at
  the end of a calendar day.
* `LogRuns`: whole runs of appends to one file: exactly when they are an append-only log.
* `RepeatedHour`: a log that is forward in time and stored out of order.
* `LogRead`: what a read returns.
* `LogFiles`: the methods of the file on its fields, each equal to its function in `LogStore` or `LogRead`.

## Model

| member | source | states |
|---|---|---|
| Ballots.WinnerUnique | Client.c:141-151 | the plurality choice is unique: ties go to the smallest index |
| Ballots.PluralityDecides | Client.c:141-151 | a label with more votes than every other one decides the choice, wherever its voters sit |
| Ballots.MajorityDecides | Client.c:141-151 | the label of more than half of the voters decides the choice |
| Ballots.FirstLargestWins | Client.c:143-176 | the head of the first largest bucket of an exact partition is the smallest index with a most frequent label |
| Ballots.PartitionJoin | Client.c:109-115 | adding a voter to the bucket of its label keeps the buckets an exact partition |
| Ballots.PartitionOpen | Client.c:116-122 | so does opening a bucket for a label not seen before |
| Replies.TopVersion | Client.c:60-78 | the highest version among readable answers, attained unless it is -1 |
| Replies.GetPicksTopVersion | Client.c:60-100 | a GET with a readable answer picks an answer of the highest version |
| Replies.GetBallotsRestart | Client.c:67-74 | a higher version makes the buckets before it void and one new bucket the exact partition |
| SelectServer.JoinBucket | Client.c:80-87 | putting the next answer into the bucket of its label keeps the table an exact partition and fits the bucket |
| SelectServer.PickWins | Client.c:141-151 | the first largest bucket of a complete table starts with the plurality choice |
| SelectServer.Client.ClearCounts | Client.c:35-39 | every bucket up to N is empty |
| SelectServer.Client.CountAnswers | Client.c:40-46 | the number of servers that answered |
| SelectServer.Client.JoinBucketOf | Client.c:80-87 | exactly the bucket of the label, if there is one, grows; all other buckets stay |
| SelectServer.Client.ClassifyGet | Client.c:60-100 | buckets 0..index are the exact partition, by value, of the answers of the highest version, despite stale buckets |
| SelectServer.Client.ClassifyPut | Client.c:101-124 | buckets 0..index-1 are the exact partition of the answers by version, and the one after them is empty |
| SelectServer.Client.PickBucket | Client.c:141-151 | the first largest bucket, -1 when all are empty |
| SelectServer.Client.Report | Client.c:152-175 | exactly the members of the suspect buckets |
| SelectServer.Client.GetReportIsExact | Client.c:152-163 | the servers a GET reports are those whose value has fewer votes than the winner's |
| SelectServer.Client.PutReportIsExact | Client.c:164-175 | the servers a PUT reports are those with a bucket of another size and a higher version |
| SelectServer.Client.SelectServer | Client.c:25-178 | too small a quorum stops the client; otherwise the plurality choice among the answers and exactly the declarative report; no bucket exactly when no answer counts |
| SelectServer.Client.PlanUpdates | Client.c:365-401 | a PUT writes the plurality version plus one, which is what a client of the protocol model decides, to exactly the servers that answered; when enough votes came from a current store it is the version after the latest, and the report names exactly the voters that claim more than the latest |
| SelectServer.Client.Read | Client.c:345-364 | whatever store the answers of a GET came from, the client returns what `AtomicStore.ReadValue` reads from it, and nothing exactly when that is nothing; when enough answers came from a current store it is the latest value, and the report names exactly the up-to-date liars |
| AtomicStore.PutBoxIsWhatClientSees | Client.c:105-123 | the ballots of a PUT are the versions its voters claim |
| AtomicStore.PutChoice | Client.c:373-379 | the chosen server is a voter and wins the vote on claimed versions |
| AtomicStore.PutFindsLatest | Client.c:105-151 | with more than 2(N - nw + f) voters the next version is the latest plus one, whatever f liars claim |
| AtomicStore.PutReportsOverclaims | Client.c:164-175 | such a PUT reports exactly the voters that claim a version above the latest, and only liars |
| AtomicStore.PutKeepsCurrent | Client.c:379-401 | such a PUT keeps at least nw replicas at the one latest version and value, and all others older |
| AtomicStore.GetFindsLatest | Client.c:61-163 | a GET with replies + nw > N + 2f returns the latest honest value and reports exactly the up-to-date liars |
| AtomicStore.RunStaysCurrent | Client.c:365-401 | after every run of such PUTs from equal replicas, nw replicas hold the last value at version v0 + number of PUTs |
| AtomicStore.VersionsCountPuts | Client.c:379 | the k-th PUT of a run writes exactly the k-th version, so versions strictly grow |
| AtomicStore.LiarsAreOutvoted | Client.c:61-100 | after every such run every large enough GET returns the value of the last PUT |
| AtomicStore.ReplicaHistory | Client.c:389-401 | every replica holds the version and value of one PUT of the run, or the first ones |
| AtomicStore.VersionsGrow | Client.c:379-401 | no replica's version ever goes back |
| QuorumCondition.EnoughIsSafe | Client.c:419 | with 3Nw > 2N every GET of every run returns the value of the last PUT |
| QuorumCondition.StaleRunEnds | Client.c:419 | with 3Nw <= 2N three PUTs leave the second value at a higher version than the third |
| QuorumCondition.TooFewIsUnsafe | Client.c:419 | so with 3Nw <= 2N some GET of some run returns an old value |
| QuorumCondition.QuorumConditionIsExact | Client.c:419 | an accepted configuration is safe if and only if 3Nw > 2N |
| QuorumCondition.AcceptedExactlyWhenQuorumsMeet | Client.c:419 | of the configurations whose quorums exist the test accepts exactly those in which every read quorum meets every write quorum and every two write quorums meet |
| Cluster.MoveKeepsInv | Server.c:198-281 | every message step keeps: a lock is set exactly while one handler holds it, and a held vote is what the server holds |
| Cluster.MoveKeepsAbs | Server.c:213-281 | counting servers locked by a decided client as updated, no grant, refusal, vote, update, release or timeout changes the store |
| Cluster.AbortKeepsAbs | Client.c:368-372 | nor does a client that gives up |
| Cluster.VotesAreCurrent | Client.c:373-379 | the votes an undecided client counts are what its voters hold at that moment, a liar's raised by 10 |
| Cluster.DecideIsAtomicPut | Client.c:373-401 | a decision is exactly one atomic PUT to the client's whole voter set |
| ClusterRuns.RunsAreAtomicPuts | Client.c:373-401 | refinement: after any number of steps of any run, the store is the result of the decided PUTs in decision order |
| ClusterCompleteness.AtomicPutsHappen | Client.c:365-401 | the converse: every legal sequence of atomic PUTs, with any voters beyond nw and any liars, is what some run decides, and at its end no server is locked and the servers hold its result |
| ClusterCompleteness.StepsCommute | Server.c:142-294 | steps of different clients at different servers stay possible after each other, and their order does not matter |
| ClusterCompleteness.ServersAreBlind | Server.c:213-281 | a server grants, refuses and releases by what it knows itself, whatever the client's status and votes |
| ClusterRuns.StepIsAtomicPutOrNothing | Server.c:198-281 | each step is one atomic PUT or changes nothing |
| ClusterRuns.HolderCountsDown | Server.c:226-281 | every step of a lock's holder, at that server or in deciding or giving up, shortens a delay of at most four, and no other step changes it |
| ClusterRuns.DelayOverUnlocks | Server.c:243-280 | when the delay is over the server is unlocked |
| ClusterRuns.HolderCanMove | Server.c:226-281 | in every reachable state the only holder of a lock has such a step |
| ClusterRuns.LocksAreShort | Server.c:226-281 | in every run a lock is held for at most three steps of its holder |
| ClusterRuns.QuietServersHoldTheResult | Server.c:226-281 | once no handler holds a lock every server is unlocked and the servers themselves hold the result of the decided PUTs |
| ClusterRuns.DecisionsCountVersions | Client.c:379 | in every concurrent run the k-th decision writes the k-th version, despite liars |
| ClusterRuns.GetBetweenDecisionsIsLatest | Server.c:65-85 | a GET of enough unlocked servers, at any moments between which no PUT is decided, returns the value decided last and reports exactly the up-to-date liars |
| ClusterRuns.GetAtOnceIsLatest | Server.c:65-85 | so does one whose answers are sent in one state of a run |
| OutnumberedGet.LiarDecidesTheGet | Server.c:65-85 | a run of three servers and one PUT, decided during the GET, in which all quorums are large enough and one liar's altered value is returned |
| ClusterRuns.GetIsNeverStale | Server.c:65-85 | a GET whose answers are sent between two moments returns the version and value of a PUT that is not older than the last one decided by the first moment, nor decided after the second; liars cannot make it go back, and only a chosen liar alters the value |
| ServerTable.Find | Server.c:4-14 | the first entry with the key, or none |
| ServerTable.ViewAfterWrite | Server.c:31-34 | changing an entry shows under its own key only |
| ServerTable.GrantsWhenGetsBalance | Server.c:65-92 | the counter is the number of GETs inside minus the number that ever met the lock, so an unlocked key is granted if and only if the two are equal |
| ServerTable.OnlyGetsInsideLetPutsIn | Server.c:65-92 | after a GET has met the lock a PUT is granted only while at least as many GETs are inside |
| ServerTable.OneGetUnderLock | Server.c:88-92 | a GET between the vote and the release of one PUT is enough |
| ServerTable.SegmentsAreMoves | Server.c:213-281 | seen as protocol rows, the segments of a PUT are the protocol's moves, and a GET is none |
| ServerTable.Server.constructor | Server.c:544-549 | the table starts with key1, value1, version 1, unlocked |
| ServerTable.Server.SearchKey | Server.c:4-14 | the loop finds the first entry with the key |
| ServerTable.Server.UpdateKey | Server.c:16-37 | -1 without the key, -2 without the lock, otherwise the new version and value in its entry and nothing else; other keys unchanged |
| ServerTable.Server.ReleaseLock | Server.c:317-330 | clears the lock in the key's entry, whoever set it, and nothing else; other keys unchanged |
| ServerTable.Server.GetResponse | Server.c:54-92 | answers with version and value, altered by a liar, exactly when the key exists unlocked; every key's version, value and lock stay, and the getter counter ends lower when the key is locked |
| ServerTable.Server.PutVote | Server.c:165-224 | grants exactly when unlocked with a zero getter count, and then locks and votes; an unknown key gets the next slot |
| ServerTable.Server.PutResponse | Server.c:142-294 | a PUT without interruption: an entry that grants ends unlocked with the update, or unchanged without one, and its getter counter as it was; a new key ends as a new unlocked entry, or without an update as a slot that has no name and stays locked |
| ServerTable.Server.PutTwice | Server.c:142-294 | after a PUT that was granted and updated the next PUT of the key is granted and votes with its version and value |
| ServerTable.PutCycle | Server.c:213-281 | vote, update and release change an entry's version and value only |
| SpinLock.StepKeepsInv | Util.c:33-47 | every memory access keeps at most one holder and the word 0 exactly while there is one |
| SpinLock.RunKeepsInv | Server.c:178-182 | for any number of threads and any schedule no two get the same slot, and the counter grows by one per allocation |
| SpinLock.SlotsAreDense | Server.c:178-182 | the finished allocations have exactly the slots from the first free one up to the counter |
| SpinLock.AllCanFinish | Util.c:33-47 | from every reachable state some schedule lets every thread through the lock |
| SpinLock.AllSlotsCanBeGiven | Server.c:178-182 | after any steps of m threads, steps exist after which exactly the m slots behind the first free one are given |
| SpinLock.NoUpdateIsLost | Util.c:3-23 | however retry loops interleave, the value is the first one plus what each adder that has finished set out to add |
| SpinLock.AllFinishedAddsAll | Util.c:3-23 | when all have finished it is the first value plus everything they set out to add |
| SpinLock.EverythingCanBeAdded | Util.c:3-23 | and from every state some schedule lets all of them finish |
| Lru.RecentIsSince | Cache.c:174-185 | a block's place in the move-to-front list is what was touched since |
| Lru.TouchNeverWraps | Cache.c:180 | the modulo never wraps |
| Lru.TouchMovesToFront | Cache.c:174-185 | update_lru on counters is move-to-front on the list |
| Lru.CountersAreMoveToFront | Cache.c:174-185 | from zeros, after any touches the counters are list positions, and untouched blocks hold the length of the list |
| Lru.CounterCountsSince | Cache.c:174-185 | a counter is the number of distinct blocks touched since |
| Lru.VictimIsLeastRecent | Cache.c:108-135 | the lowest highest counter is the lowest untouched block, or the least recently touched one if there is none |
| Lru.Cache.UpdateLru | Cache.c:174-185 | the loop in place computes the touch |
| Lru.Cache.GetFreeCacheBlock | Cache.c:108-135 | the victim, whether it was free, and only its flag cleared |
| Lru.Cache.Allocate | Cache.c:108-135 | NORMAL exactly when a block is free, and then the lowest free one; otherwise the least recently touched one |
| Lru.Cache.Hit | lfs_fuse.c:155-157 | renewing a resident block moves it to the front |
| Metadata.NumberReads | lfs_fuse.c:51-55 | %d reads back every number %d printed |
| Metadata.PrintsCanonical | lfs_fuse.c:51-55 | a printed number has no leading zero |
| Metadata.CanonicalIsPrinted | lfs_fuse.c:51-55 | and it is the only such text of its value |
| Metadata.NumberBehindSpace | lfs_fuse.c:101 | %d skips any white space and takes a sign |
| Metadata.WordBehindSpace | lfs_fuse.c:101 | %s skips any white space |
| Metadata.SplitReads | lfs_fuse.c:108-120 | splitting at ';' gives back the joined paths |
| Metadata.HeaderReads | lfs_fuse.c:101 | the format reads back name, path count and size of a printed record, whatever follows |
| Metadata.ParseAfterPrint | lfs_fuse.c:100-120 | parsing a printed record followed by any leftover gives it back, if and only if it has a path or the leftover has a word |
| Metadata.SplitPathsLoop | lfs_fuse.c:108-120 | the index loop computes the split |
| Metadata.PrintLoop | lfs_fuse.c:46-63 | the strcat loop computes the printed text |
| MetaCache.FindFrom | Cache.c:156-172 | the first allocated block with the name, or none |
| MetaCache.HitKeepsInv | lfs_fuse.c:149-157 | a hit keeps the cache's names and records in step with the history |
| MetaCache.MissKeepsInv | lfs_fuse.c:73-124 | a miss succeeds if and only if the record can be read back, and then keeps names and records in step |
| MetaCache.CreateKeepsInv | lfs_fuse.c:247-255 | so does a new file, if the record it drops is on disk |
| MetaCache.UpdateKeepsInv | Cache.c:353-401 | changing a resident record in place, with or without write-through, changes that file and no other |
| MetaCache.RunKeepsInv | lfs_fuse.c:73-157 | a run of lookups, changes and new files succeeds if and only if every lookup that misses can read its record back, and then keeps the whole invariant |
| MetaCache.CacheHoldsMostRecent | Cache.c:108-185 | after every run that succeeds a cache of n blocks holds exactly the n most recently used or made names |
| MetaCache.LargerCacheHoldsMore | Cache.c:108-185 | on the same accesses, with a path at every eviction from the smaller cache, both caches succeed and the larger holds all the smaller holds |
| MetaCache.CacheIsTransparent | lfs_fuse.c:79-122 | a run shows the records that a plain map would show if and only if every lookup that misses can read its record back |
| MetaCache.PathsReload | lfs_fuse.c:79-122 | which is so whenever every record has a path at the moment it is evicted, as the accesses alone tell |
| MetaCache.LargerEvictsPaths | Cache.c:108-185 | and then it is so for every larger cache |
| MetaCache.WriteThroughDropsClean | lfs_fuse.c:539-542 | with write-through every record is on disk at all times, and new files drop no change |
| MetaCache.WriteThroughIsTransparent | lfs_fuse.c:539-542 | as built the cache is invisible if and only if every lookup that misses can read its record back, and so whenever evicted records have a path |
| MetaCache.NewFileDropsChange | lfs_fuse.c:249-255 | without write-through a new file loses the change of the record whose block it takes |
| MetaCache.EvictionKeepsRecord | lfs_fuse.c:79-122 | a written-back record can be reloaded exactly when it has a path or the old tail has a word |
| MetaCache.FreshFileIsUnreadable | lfs_fuse.c:249-255 | what is written for a new file cannot be read back |
| MetaCache.MetadataCache.FindMetaDataBlock | Cache.c:156-172 | the loop finds the first resident block of the name |
| MetaCache.MetadataCache.WriteMetadataToDisk | lfs_fuse.c:38-71 | the text is printed over the old file, whose longer tail stays |
| MetaCache.MetadataCache.LookupRecord | lfs_fuse.c:149-157 | a lookup renews the resident block or loads the record |
| MetaCache.MetadataCache.LoadRecord | lfs_fuse.c:73-124 | write-back of the victim, then parsing into its block |
| MetaCache.MetadataCache.MakeRecord | lfs_fuse.c:247-255 | a new file's record takes the victim's block and is written to disk |
| MetaCache.MetadataCache.ChangeRecord | lfs_fuse.c:539-542 | a change in place is written through |
| Flush.RunsAreMaximal | Cache.c:336-384 | the pieces have one date each and neighbours differ in date |
| Flush.LinesAndRest | Cache.c:336-341 | a buffer is its complete stamped lines followed by what is not read |
| Flush.PiecesAreDateRuns | Cache.c:322-407 | the pieces are the maximal runs of equal-date lines, and together all complete lines |
| LogDays.EqualDatesAreEqualDays | Cache.c:278-298 | two stamps of the log's format have equal dates if and only if they show the same calendar day |
| LogDays.PiecesAreDays | Cache.c:322-407 | for a log of such stamps the pieces are the stretches of lines of one calendar day, and neighbouring pieces are of different days |
| LogDays.MidnightCuts | Cache.c:336-407 | two lines on either side of midnight make two pieces in the folders of their days |
| LogDays.StampOfLine | Cache.c:325 | a line's stamp is its second field |
| LogDays.NoStamp | Cache.c:338 | there is none without a first field, a second field, or a bar |
| LogDays.SampleIsDated | sample-log:1 | the sample log's first line has a stamp of the log's format, and its moment |
| Flush.CarryIsRest | Cache.c:409-416 | the carried text is the unread rest if and only if that is an unfinished line |
| Flush.FlushConserves | Cache.c:322-416 | for every buffer that starts with a timestamp, pieces and carried text are the buffer again if and only if it ends in an unfinished line behind complete stamped ones |
| Flush.LoneLineIsDoubled | Cache.c:322-416 | a buffer that is one unfinished line is written with a NUL behind it and carried over |
| Flush.FlushRepeatsLastLine | Cache.c:409-416 | a buffer that ends on a line keeps a copy of that line |
| Flush.OneLineIsRepeated | Cache.c:409-416 | a concrete buffer for which this happens |
| LogStore.PiecesAreListed | Cache.c:353-365 | the chunk files are exactly the pieces' paths, each listed once |
| LogStore.WritesKeepSize | Cache.c:366-401 | the recorded size is always the total length of the chunk files |
| LogStore.AppendsHitLastExactly | Cache.c:353-365 | appends to existing chunks always hit the last path if and only if no chunk name comes back after another |
| LogStore.ChunksKeepOrder | Cache.c:353-365 | then the chunks in path order are the pieces in the order written |
| ChunkOrder.ContentsInOrderExactly | Cache.c:353-365 | for pieces that tell their names, the chunks in path order are the pieces in writing order if and only if no name comes back |
| LogTime.NamesAreMoments | Cache.c:246-258 | two stamps of the log's format make the same chunk name if and only if they show the same local year, month, day and time |
| LogTime.FieldsAreWords | Cache.c:251 | the parts of a stamp are its words, however many blanks stand between them |
| LogTime.NameOfStamp | Cache.c:246-258 | the chunk's name is made of its month, day, year and time |
| LogTime.ZoneIsNotNamed | Cache.c:246-258 | the name has every part of the stamp but the weekday and the zone |
| LogTime.TimeOrderNeverRecurs | Cache.c:246-258 | when local times never go backwards, no chunk name comes back |
| LogRuns.RunConserves | lfs_fuse.c:536-551 | if every flush finds an unfinished last line, the flushed pieces and the buffer are all bytes appended, in order |
| LogRuns.RunLinesAreLogLines | Cache.c:336-384 | then the flushed lines are the first complete lines of the log |
| LogRuns.RunHeads | Cache.c:336-384 | the pieces of a run are named after lines picked in order from the log |
| LogRuns.OrderedLogNeverRecurs | Cache.c:336-384 | when the timestamps of the log's lines never go backwards, no chunk name of the run comes back |
| LogRuns.StoreIsLogExactly | lfs_fuse.c:536-551 | if every flush finds an unfinished last line, the chunk files in path order and then the buffer are all bytes ever appended, in order, if and only if no chunk name comes back; their total length is size plus offset either way |
| LogRuns.StoreIsAppendOnlyLog | lfs_fuse.c:536-551 | so they are when the timestamps of the log never go backwards, and then appends hit the last path |
| RepeatedHour.ThreeFlushes | lfs_fuse.c:536-551 | for every block and line count that suit, four appends flush lines of three kinds one kind at a time, and every buffer fits the block with its NUL |
| RepeatedHour.RepeatedHourIsReordered | Cache.c:246-258 | in every block of more than 96 bytes a log from 01:30:00 and 01:45:00 EDT to 01:30:00 EST is stored out of order, with every buffer inside the block and every flush finding an unfinished last line |
| LogRead.StrCatAppends | lfs_fuse.c:456 | strcat lets the C string at the address grow by the buffer and leaves what is behind alone |
| LogRead.AppendsWholeExactly | lfs_fuse.c:452-457 | strcat puts the buffer behind the chunks if and only if it is empty or they have no NUL |
| LogRead.ReadIsWholeExactly | lfs_fuse.c:440-460 | a read returns the reported number of bytes, and they are every chunk whole and then the buffer under that condition |
| LogRead.RunNuls | Cache.c:322-407 | over a run, within its block or not, chunks get a NUL if and only if a flush met an unfinished first line |
| LogRead.ReadMatchesReportedSize | lfs_fuse.c:440-460 | in every run whose flushes find a timestamp, within its block or not, a read returns the number of bytes lfs_getattr reports, and they are every chunk whole with its newline and then the buffer if and only if no flush met an unfinished first line |
| LogRuns.FittingFlushesFindLines | Cache.c:322-416 | in a run that stays within its block no flush meets an unfinished first line |
| LogRuns.ShortLinesFit | lfs_fuse.c:536-551 | a run stays within its block when every text leaves room for the longest line of the log |
| LogRead.ReadIsWhole | lfs_fuse.c:440-460 | in every run that stays within its block a read returns every chunk whole with its newline and then the buffer, as many bytes as lfs_getattr reports |
| LogFiles.LogFile.WriteChunk | Cache.c:353-366 | creates the chunk and lists it, or appends to it, and adds the length to the size |
| LogFiles.LogFile.ReadLine | Cache.c:336-341 | the next line, with its stamp exactly when it is complete and stamped; nothing behind the NUL |
| LogFiles.LogFile.Flush | Cache.c:300-418 | for every buffer that starts with a timestamp the offset loop writes exactly the pieces and carries over exactly the carried text |
| LogFiles.LogFile.Write | lfs_fuse.c:536-551 | flushes when the text does not fit, then appends it |
| LogFiles.LogFile.GetAttr | lfs_fuse.c:163-174 | the reported size is the number of bytes a read returns |
| LogFiles.LogFile.Read | lfs_fuse.c:435-460 | the loop and the strcat compute what a read returns, which is every chunk whole and then the buffer when there is no NUL in them |

## Left out

- Sockets, DNS, threads as such, `select` timeouts, random delays and replies, printing, argument parsing: a server that does not answer in time is one that stays silent.
- Integer widths and C buffer lengths: versions, sizes and counters are unbounded; keys and values are strings without white space; lines are shorter than MAX_LINE_SIZE, and a record has room for its paths.
- Races inside one handler segment, such as a version that is read before the lock test (Server.c:198-214): the model makes each segment one step.
- Lost updates and timeouts after a decision: the version invariants need every voter to be updated.
- ServerTable.Server.PutVote: for a key not yet in the table it states the new slot and the vote, but the protocol model has no such step, because the slot carries no key until its update arrives (Server.c:178-197, Server.c:238); and it assumes a free slot where the code would run past the table.
- ServerTable.SegmentsAreMoves: says what each segment does to one row; that the segments arrive in the order of the protocol is part of the steps of `Cluster`.
- ClusterRuns.GetIsNeverStale: with liars the chosen server may be one of them when a PUT is decided during the GET, as in `LiarDecidesTheGet`; that the honest value wins is proved for GETs without a decision in between (`GetBetweenDecisionsIsLatest`).
- SelectServer.Client.SelectServer: a GET without any readable answer reads `hashMap[-1]` in C; the model returns `NoBucket` there. It covers fewer than MAX_CON servers.
- LogFiles.LogFile.Flush: a buffer that does not start with a timestamp makes the C code use an unset timestamp and folder name and is excluded; so is memory behind the buffered text that is not zero, and a text that fills its block to the last byte.
- Absolute time: stamps are ordered by the local time they show, as their zones are abbreviations that the code never reads.
- Timestamps whose third and sixth parts are not numbers or that lack parts, for which `is_dates_equal` compares unset variables: missing parts count as empty.
- MetaCache.CacheIsTransparent: says nothing about runs in which a new file drops a record that is not on disk, which write-through rules out; `NewFileDropsChange` is such a case. `lfs_mknod` is modelled for names that are not files yet.
- A write-buffer block that is given to another file with text carried over (lfs_fuse.c:519-530), and buffer blocks that share a metadata record which is evicted later: the log store has one resident file.
- LogFiles.LogFile.Write: appends also a text that does not fit behind the text carried over, whether it is larger than the block or only than what is left of it; C then writes beyond the block, and what happens afterwards is undefined.
- LogRuns.StoreIsLogExactly: counts such runs as well; for C it speaks of runs that stay within their block (`StaysWithin`).
- LogRuns.StoreIsAppendOnlyLog: the same.
- Reads at an offset, which `lfs_read` ignores.
- `create_date_folder`'s mkdir, `write_cache_block`, `read_cache_block`, the FUSE pass-through calls, fusexmp.c, tcpclient.c, and the stray `sum` at Cache.c:15.
