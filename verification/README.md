# Rose: verified models of the storage core

Rose is an append-only object store: a crash-safe storage layer under a reference-counted catalog.
This project models its hard parts in Dafny and proves what they promise, for every input, every run
and every interleaving.

`dafny verify dfyconfig.toml` checks everything.

## What is modelled

**Rollback journal** (`Journal.dfy`). A step machine over the data file and the journal's directory
entry, each with what the process sees and what a power loss may leave. One event is one system call
of `saveUndo`, `commitUndo` or `restoreUndo`, one change of the data file, a close or a crash; every
call may fail. After a crash every byte from the first one changed since the last fsync on is
arbitrary, the length included, and the journal's name is any value it had since the last directory
sync. `JournaledFile` makes the calls of a restart in the program's order.

**Physical log** (`PlogLayout.dfy`, `PlogTrailer.dfy`, `PlogImage.dfy`, `Plog.dfy`). Sectors sealed
into blocks of 255 data sectors and a hash sector, the ragged tail in memory, the inline trailer. The
class `Plog` has the program's fields; its abstraction is the plain byte sequence that was appended
and truncated. The digests are function values about which nothing is assumed: a read returns the
bytes that were sealed, or fails, or the disk holds a digest collision or a forged tag (`Honest`).
Every physical change goes through `WritePhysical` or `TruncateFile`, whose preconditions are the
journal discipline.

**Durability of the log** (`Durability.dfy`, `Recovery.dfy`). Every system call of the log's operations
is a step of the journal machine. The log carries the run of these steps as a ghost trail; each moment
of it says which log was acknowledged last and which were handed to a commit since, and whatever a
power loss at that moment can bring back is the committed form of one of those. No assumption about
images is left: it is an invariant of every operation, each with its own outcome for every call.

**Write cache and splice** (`Overlay.dfy`, `Spans.dfy`, `WriteCache.dfy`, `Splice.dfy`). Dirty spans over
a settled prefix over a clipped base over zeros, against a flat byte array. The sort of the span list
may put spans with equal starts in any order. Where the code does less than a flat array is stated
exactly: when a truncation leaves the span list unordered (`Collides`), when a write then shows other
bytes than it should (`Faithful`, `Uncovers`), when a failed truncation lets bytes come back (`Quiet`),
and when the published version is not the file (`DirtyAgrees`, `Whole`).

**Virtual log** (`Mirror.dfy`, `Erasure.dfy`). Mirrored quorum appends as a step machine whose tasks
outlive the append or commit that started them, with concurrent reads; erasure-coded rows as a class
over an abstract code in which any `d` columns determine the row, with appends that outlive their
fan-out. For both, repeating a failed append.

**Catalog** (`Paths.dfy`, `Namespace.dfy`, `Refs.dfy`, `Catalog.dfy`, `CatalogStore.dfy`). Each SQL
transaction is one atomic step on maps. `CatalogStore.Store` holds the loops, each proved to be the
step the specification says.

**Reclamation** (`Pins.dfy`). Pin, look-up, drop, release, transactions, collection and retirement at
lock granularity, over the catalog's own steps.

**Placement generations** (`Epochs.dfy`). Row changes with their triggers, and the guarded moves.

**Control algorithms** (`Retention.dfy`, `Packing.dfy`, `Rebalance.dfy`, `Coordinator.dfy`).

## What turned out false, and when it holds

- The span list stays sorted and separated after `Truncate` exactly when the cut is not inside a
  settled chunk with a dirty span starting below it (`TruncatedShape`). The content is right either
  way. The next write then gives the flat file, however its sort treats equal starts, exactly when no
  dirty byte of the cut chunk that differs from the settled one belongs to a span that starts no higher
  than the chunk and ends below the write, or the write ends below the chunk (`WriteAfterCollision`).
  A run that gets there and loses bytes is `TruncatedThenWritten`.
- A truncation that cannot read the chunk it cuts returns an error, but the file has the new size
  (`StrandedContent`), the settled chunks still reach past it, and the handle goes on. Repeating it
  repairs this (`TruncationRetried`). Until then growing the file gives zeros exactly when the bytes cut
  off are zeros (`Quiet`, `CutOffThenBack`), and publishing gives the settled prefix at its old length
  (`TruncationFailedThenPublished`).
- `finalizeCache` returns the file exactly when no dirty byte below the settled prefix differs from the
  settled byte under it and no truncation failed to cut that prefix (`SpliceIsContent`). A run that
  publishes something else is `PublishedWithoutTheWrite`.
- Reopening a committed log gives that log exactly when it is not `Confusable`: it ends on a block
  boundary and the digest of the last block's first sector begins like a trailer of 254 sectors
  (`BoundaryParses`, `Plog.Open`). `recoverFromTrailer` changes the length before it checks the keyed
  digest, so even a trailer it then rejects changes what the fallback starts from. The run is
  `CommittedBlockComesBackShort`.
- A directory rename moves exactly what lies beneath the directory if and only if nothing lies beneath
  a path that differs from its name only in the case of ASCII letters, because SQL `LIKE` ignores case
  and `meta/db.go:108` leaves it so (`MoveDirExact`, `RenameTakesOtherCase`). It keeps the tree if and
  only if the new name does not lie beneath such a variant and no file and directory get the same path
  (`MoveDirTree`, `RenameOrphansOtherCase`). The reference counts and the pins stay right either way.
- A pin survives until release only if the calls of one owner do not overlap, as the operation lock
  ensures (`OverlappingCallsLoseThePin`).
- A rebalancing move lowers the sum of squared loads unless the shard is empty or exactly as large as
  the gap. A pass without a move cap ends when no shard is empty or larger than the band
  (`RebalanceUncapped`). On two disks with nothing in the way it goes on for ever if and only if it comes
  to where the busier disk holds a shard as large as the gap (`Balancer.Rebalance`, `PairStep`), as with a
  single shard larger than the band (`LoneShardBounces`).

## Model

| member | source | states |
|---|---|---|
| Journal.CrashSafety | storage/undo.go:90-248 | after any run of saves, changes, commits, restores, failures and crashes, whatever a power loss leaves is accepted by restore and yields the last acknowledged image or one whose commit was begun after it, never a mixture |
| Journal.CommittedImageSurvives | storage/undo.go:227-248 | once commit returned success, exactly that image is recovered after any later writes, failed calls and crashes until another commit is begun |
| Journal.RestoreIsRepeatable | storage/undo.go:182-225 | a crash decides the image once: an interrupted, repeated or failing restore, with any number of further crashes, yields the same image |
| Journal.StepInv | storage/undo.go:90-248 | every system call, change and crash keeps the protocol invariant |
| Journal.CrashRecovers | storage/undo.go:182-225 | under the invariant every crash outcome recovers to an allowed image |
| Journal.RestoreWrite | storage/undo.go:205-220 | while a restore rewrites the file, every mixture of old and restored bytes still recovers to the same image |
| Journal.JournaledFile.RestoreUndo | storage/undo.go:182-225 | success leaves exactly the image recovery decides, durable, with no journal left, ready for a fresh run |
| Durability.NextKnown | storage/undo.go:90-248 | after every system call of a log, whatever a power loss can bring back is the committed form of the log last acknowledged or of one whose commit was begun since |
| Durability.SaveBacked | storage/undo.go:90-176 | the calls of saveUndo, failing anywhere, keep that and the survivors; with no call refused the save succeeds |
| Durability.ChangeBacked | storage/plog.go:990-1003 | a physical change at or above the protected start keeps it |
| Durability.RetireBacked | storage/undo.go:227-248 | the calls of commitUndo on a committed image keep it; success leaves the present log as the only survivor, failure may add it |
| Recovery.ReopenAfterSession | storage/plog.go:212-290 | over any session with any failures: power loss at any system call of operation i, then restoreUndo and OpenPlog, gives the stream acknowledged before operation i, one handed to a commit since then, or, while i is a commit and runs, the one it commits; before its first call only what the operations before it left, after its last only what it leaves |
| Recovery.ReopenAcknowledged | storage/plog.go:212-290 | once a commit of the session was acknowledged, and until another one is begun, power loss at any moment brings back exactly its stream |
| Recovery.ReopenAfterCrash | storage/plog.go:212-290 | power loss at any moment of any log's life, rollback and reopening give an intact log with exactly the last acknowledged stream of that moment or one whose commit was begun after it, a shorter one only when that log is confusable |
| PlogLayout.AddressRoundTrip | storage/plog.go:547-573 | converting a logical offset to physical and back is the identity |
| PlogLayout.LayoutSector | storage/plog.go:568-573 | in the image of a sealed stream every sector sits at CalcPhysical of its offset |
| PlogLayout.LayoutHashSector | storage/plog.go:577-579 | every completed block is followed by the digests of exactly its own 255 sectors and the keyed digest over them |
| PlogLayout.LayoutPrefix | storage/plog.go:429-473 | the image of a shortened stream is a prefix of the image |
| PlogLayout.LayoutSnocBlock | storage/plog.go:634-643 | the sector that completes a block extends the image by itself and that block's hash sector |
| PlogImage.SealAll | storage/plog.go:622-672 | the bytes of one batched write, appended to the image of the sealed stream, are the image of the longer stream; the new digests and tail are its open digests and remainder |
| PlogImage.IntactIsHonest | storage/plog.go:781-835 | an untouched image exhibits neither a forged tag nor a digest collision |
| PlogImage.CutHolds | storage/plog.go:443-452 | cutting the file at CalcPhysical of the target keeps the image of every sector below it |
| PlogImage.CommitBytes | storage/plog.go:942-975 | ragged edge, trailer and final truncate leave image, tail and trailer and nothing else |
| PlogTrailer.TrailerFields | storage/plog.go:1007-1026 | the fields, digests and keyed digest of a built trailer read back as they went in |
| PlogTrailer.EndsLocated | storage/plog.go:482-523 | a file that ends in the trailer of an open block is recognised with that block's own geometry and digests |
| PlogTrailer.EndsAdopted | storage/plog.go:515-542 | with an intact trailer the recovered length is right, and digests and tail are the committed ones, or both are marked unusable |
| PlogTrailer.AtBoundary | storage/plog.go:482-514 | on a block boundary a trailer is located exactly when the last sector parses as one with 254 sectors, and it would shorten the log |
| PlogImage.BoundaryParses | storage/plog.go:482-514 | a committed log on a block boundary is mistaken for a shorter one exactly when the digest of its last block's first sector begins like a trailer |
| PlogModel.Plog.ProtectPrefix | storage/plog.go:1162-1171 | success means every later change from there on can be undone; failure changes nothing that is protected; no other log comes to survive a power loss |
| PlogModel.Plog.CommitUndo | storage/undo.go:227-248 | success acknowledges exactly the present log and leaves no journal that could come back; failure acknowledges nothing new, but the commit may have got through |
| PlogModel.Plog.Write | storage/plog.go:588-687 | appends exactly the data or nothing, keeps the image and the superblock, refuses while the tail is untrusted, changes nothing about what survives a power loss, and succeeds when the system calls do |
| PlogModel.Plog.EnsureAppend | storage/plog.go:694-718 | afterwards the range is present once with exactly these bytes; it succeeds exactly when the data agrees with what is there and leaves no gap |
| PlogModel.Plog.Read | storage/plog.go:729-777 | for any disk content a successful read returns exactly the bytes appended there; on an intact disk every read in range succeeds; out-of-range and overflowing requests fail |
| PlogModel.Plog.ReadDataSector | storage/plog.go:781-803 | a sealed sector or an error, whatever the disk holds |
| PlogModel.Plog.SectorHashFor | storage/plog.go:807-835 | the digest the sector had when it was sealed, or the mark for an unverified one |
| PlogModel.Plog.TruncateTo | storage/plog.go:429-473 | only shrinks, keeps the exact prefix and the image, re-trusts the open block only if it verified, and leaves everything as it was when refused |
| PlogModel.Plog.RebuildFor | storage/plog.go:402-417 | the fallback restores geometry only: nothing wrong is trusted |
| PlogModel.Plog.Commit | storage/plog.go:931-988 | success leaves exactly the committed form of the log and it alone survives; failure leaves contents and image as they were, and the log last acknowledged or this one survives; the file has its committed form even when only retiring the journal fails |
| PlogModel.Plog.RecoverFromTrailer | storage/plog.go:482-543 | answers exactly for a recognised trailer and leaves the state it describes |
| PlogModel.Plog.Reload | storage/plog.go:376-397 | over a file with an intact trailer: right length, right or marked tail and digests; on a block boundary right when nothing parses as a trailer and too short otherwise |
| PlogModel.Plog.Open | storage/plog.go:212-290 | reopening a committed file gives the committed log, intact, if and only if it is not confusable, else a shorter one; with rot elsewhere later reads give committed bytes or errors |
| PlogModel.Create | storage/plog.go:238-266 | a new file with a durable superblock is an empty log, from which every session starts |
| PlogModel.CommittedBlockComesBackShort | storage/plog.go:482-543 | a run without failures whose committed log comes back shorter |
| PlogModel.CommitAndReopen | storage/plog.go:931-988 | commit then reopen is the identity on contents if and only if the log is not confusable |
| PlogModel.Apply | storage/plog.go:429-988 | one operation is that operation on a byte sequence or nothing, with a working disk takes effect exactly when it applies, and at each of its moments only the streams it may bring back survive |
| PlogModel.Session | storage/plog.go:429-988 | over any sequence of appends, positioned appends, truncations and commits, each with its own outcome for every system call, the log is the byte sequence of those that took effect and its image stays intact; the record it returns says for every operation which moments of the log are its own and which streams survive a power loss there |
| Overlay.OverlayIsFlatWrite | server/writecache.go:92-165 | a span list that overlays a write shows the flat file after that write if and only if no byte a failed truncation cut off comes back below it |
| Spans.WriteInPlace | server/writecache.go:99-132 | taken exactly when the first span not below the write starts at or below it and the next above it; on any list a handle can have it overlays exactly the write |
| Spans.WriteMerging | server/writecache.go:134-165 | any list becomes some sort of the untouched spans and the merge of the touched ones; ordered and separated lists stay so |
| Spans.MergedCovers | server/writecache.go:134-158 | the merged span covers the write and the touched spans without a gap and shows the last of them outside the write |
| Spans.KeepsExactly | server/writecache.go:159-161 | for any span list: whatever the sort does with equal starts, the sorted list shows exactly the write if and only if every span that may come out on top shows the file's byte |
| Spans.WellFormedKeeps | server/writecache.go:134-161 | on ordered, separated spans every write shows exactly |
| Spans.CollidedKeeps | server/writecache.go:134-161 | with a span read back in front of ordered ones, a write shows exactly if and only if it exposes no dirty byte; a byte whose span starts lower is lost for certain |
| WriteCacheModel.WriteCache.WriteAt | server/writecache.go:86-165 | on every cache a handle can have: a faithful write is the flat write if and only if it brings back nothing a failed truncation cut off, and one that loses a byte is not; ordered, separated spans stay so and are always faithful; says exactly when a dirty byte comes to lie below the settled prefix |
| WriteCacheModel.FaithfulExactly | server/writecache.go:134-165 | a merging write gives the flat file for every order of equal starts if and only if it is faithful and brings nothing back |
| WriteCacheModel.WriteAfterCollision | server/writecache.go:134-165 | after a colliding truncation the next write gives the flat file if and only if it uncovers no settled byte |
| WriteCacheModel.WriteCache.Truncate | server/writecache.go:233-275 | on every cache a handle can have, and whether it succeeds or fails, content becomes the resized file if and only if nothing cut off comes back; spans stay ordered exactly when the cut does not collide; says exactly when it fails and what cache it leaves then |
| WriteCacheModel.TruncatedContent | server/writecache.go:233-275 | clipping, the kept chunks and the chunk read back show what was there |
| WriteCacheModel.StrandedContent | server/writecache.go:233-269 | a truncation that fails has resized the file all the same, with the settled chunks reaching past its end |
| WriteCacheModel.TruncationRetried | server/writecache.go:233-275 | repeating a failed truncation, once the chunk can be read, leaves exactly the cache the first attempt would have left |
| WriteCacheModel.TruncatedShape | server/writecache.go:251-273 | the span list is well formed if and only if the cut does not collide |
| WriteCacheModel.WriteCache.ReadAt | server/writecache.go:183-228 | exactly the requested part of the file, short at its end, with the size limit and the failures of the store |
| WriteCacheModel.WriteCache.CommitSpill | server/writecache.go:302-312 | settling a prefix changes no byte of the file |
| WriteCacheModel.SpillKeepsContent | server/writecache.go:302-312 | settled chunks and the shortened span show the same file |
| WriteCacheModel.WriteCache.Spill | server/api.go:1407-1424 | terminates, keeps the file, and leaves no leading span over the threshold |
| WriteCacheModel.Session | server/writecache.go:86-312 | over any sequence of writes, truncations and spills, each with its own answer of the store, colliding and failed truncations included, the file equals a flat array given the same operations for as long as every one was faithful; they all are for as long as no write went below the settled prefix and no truncation failed |
| Splice.FinalizeCache | server/api.go:1698-1779 | settled chunks verbatim, then exactly the current bytes above them, none after a failed truncation below; every untouched base chunk reused in place; terminates, and succeeds when the store does |
| Splice.SpliceIsContent | server/api.go:1698-1779 | the published list is the file if and only if dirty bytes below the settled prefix repeat the settled ones and no truncation failed to cut it |
| Splice.WriteBelowSettledIsLost | server/api.go:1698-1779 | writing a new byte below the settled prefix changes the file, but the version published then has the settled byte |
| Splice.PublishedWithoutTheWrite | server/api.go:1698-1779 | a run of a handle whose published version is not its file |
| Splice.TruncationFailedThenPublished | server/api.go:1698-1779 | after a truncation into the settled prefix failed, reads show the shortened file, and the version published is the settled prefix at its old length |
| Splice.CutOffThenBack | server/writecache.go:86-275 | a run in which a truncation fails and a write behind the new end brings back bytes it cut off |
| Splice.TruncatedThenWritten | server/writecache.go:86-275 | a run of a handle in which a truncation collides and the next write loses bytes |
| Splice.CleanContent | server/api.go:1711-1734 | a base chunk outside all dirty ranges holds the file's bytes at its place |
| Mirror.MirrorPrefixSafety | storage/vlog.go:160-331 | in every reachable state, stragglers of appends and commits included, complete replicas with a live file hold the whole log, there is a quorum of complete ones, the set only shrinks, and once anything was appended all of them have a live file |
| Mirror.ReadsAreStable | storage/vlog.go:436-482 | a read answered by any replica it may ask gives the bytes the log had when it started, whatever was appended or failed since |
| Mirror.CommittedPrefixSurvives | storage/vlog.go:607-628 | what CommitPrefix returned is held durably by a quorum, then and ever after |
| Mirror.StepInv | storage/vlog.go:160-482 | every step of appenders, append and commit goroutines, committers and readers keeps the invariant |
| Mirror.RepeatsStayPoised | storage/vlog.go:406-428 | however often an append of the same bytes is tried, whatever fails and whatever lands late, every usable replica stays the log and some first part of them |
| Mirror.RetriedAppendSucceeds | storage/vlog.go:406-428 | so a repetition that reaches its replica succeeds there and leaves it as one append would |
| Mirror.PlacedOnCourse | storage/vlog.go:412-428 | a part placed on a replica that holds everything before it extends exactly that |
| Mirror.LandCourse | storage/vlog.go:417-426 | a task of the current append stays on course part by part |
| Mirror.CollectQuorum | storage/vlog.go:272-315 | succeeds exactly when a quorum of candidates succeeds, in any arrival order, and returns exactly a quorum of them |
| Erasure.EcVlog.Write | storage/vlog.go:198-231 | whole rows only, all or nothing on the logical stream, every shard holding its columns of every row, whatever appends of earlier failed attempts land in between; repeating the same rows after any number of failed attempts, with nothing but their appends still running, succeeds exactly when they are whole rows within the limit, once every shard is reached, and leaves nothing behind |
| Erasure.EcVlog.Settle | storage/vlog.go:256-316 | an append that outlived its failed fan-out and lands later changes nothing that was written, keeps rows ready to be repeated if it is one of theirs, and changes nothing at all where its row was written |
| Erasure.EcVlog.TidyIsReady | storage/vlog.go:198-231 | a log no failed append has touched is ready for any further rows |
| Erasure.PutRows | storage/vlog.go:210-228 | the row loop stripes the data over all shards, with stragglers of earlier attempts landing anywhere in between; rows of a failed attempt lie above the end; shards some way into these very rows stay so, and end level when all rows land |
| Erasure.PutRow | storage/vlog.go:216-227 | one fan-out, over clients that place bytes and clients that can only append, behind whatever stragglers land first, succeeds only if all shards do, and never changes what a shard held |
| Erasure.EcVlog.Read | storage/vlog.go:484-505 | whatever succeeds is what was written, and it succeeds whenever no row lost more than the parity columns |
| Erasure.EcVlog.ReadRowRange | storage/vlog.go:513-539 | direct and rebuilt columns together give the row's bytes |
| Erasure.EcVlog.ReconstructRow | storage/vlog.go:544-585 | succeeds exactly when enough columns can be read, in any arrival order, and yields the codeword |
| Erasure.VerifyAll | storage/verify.go:18-73 | succeeds exactly when the range is inside the log and every touched row is readable everywhere, a codeword, and agrees with the expected bytes; an empty range inside the log verifies |
| Erasure.VerifiedRowIsEncoded | storage/verify.go:42-71 | a verified whole row means every shard, parity included, holds its column of the codeword of the expected bytes |
| Erasure.WrittenVerifies | storage/verify.go:42-71 | a log whose shards hold what was written verifies against what was written |
| Erasure.Regroup | storage/vlog.go:361-400 | however the bytes are cut into parts, the rows encoded are the rows of their concatenation; a remainder is refused |
| Paths.Split | meta/namespace.go:22-28 | a canonical path is its parent, a slash and its name, and the parent is canonical |
| Namespace.RelocatedParent | meta/queries.go:1094-1095 | the parent of a row that is found is a case variant of the old name or is found too, and the new parent is the new name or where that one goes |
| Paths.AncestorsAbove | meta/namespace.go:42-54 | ancestors are canonical, properly above, and closed under parents |
| Namespace.EnsureAllMeaning | meta/namespace.go:58-73 | fails exactly when an ancestor is a file, otherwise adds exactly the missing ancestors |
| Namespace.PutHeadTree | meta/queries.go:470-524 | publishing keeps the tree, changes only that head and missing ancestors, and is refused exactly at the root, over a directory and beneath a file |
| Namespace.MkdirTree | meta/namespace.go:161-188 | keeps the tree; refused exactly when the path or an ancestor is a file |
| Namespace.RmdirTree | meta/namespace.go:219-256 | removing a directory no row names as parent keeps the tree |
| Namespace.NoChildNothingUnder | meta/namespace.go:241-251 | the parent column sees everything that lies beneath a directory |
| Namespace.MoveFileTree | meta/queries.go:1017-1050 | moving a file keeps the tree; refused exactly over a directory or beneath a file |
| Namespace.MoveDirTree | meta/queries.go:976-1013 | refused exactly over a file, over a non-empty directory, beneath a file, and when two rows would get the same path; otherwise keeps the tree if and only if the new name is not beneath a case variant of the old one and no file and directory get the same path |
| Namespace.MoveDirExact | meta/queries.go:1055-1103 | exactly the entries beneath the old path move, to the same suffixes, with their contents, all else staying except new ancestors and a removed empty destination, if and only if nothing lies beneath a case variant of the old path |
| Namespace.RenameTakesOtherCase | meta/queries.go:1073-1103 | renaming `a` takes the file of a directory `A` along |
| Namespace.RenameOrphansOtherCase | meta/queries.go:1073-1103 | renaming `a` to beneath a directory of `A` leaves it without a parent |
| Namespace.RewriteLoop | meta/queries.go:1073-1103 | rewriting the rows LIKE finds, one by one in any order, is the simultaneous rewrite where it succeeds; it fails when two of them would get the same path or one the path of a row that stays, and otherwise only where one would get the path another still has |
| Namespace.RenameTree | meta/queries.go:939-1050 | a successful rename keeps the tree if and only if, when it moves a directory, the new name is not beneath a case variant of the old one and no file and directory get the same path |
| Refs.UpsertCounts | meta/queries.go:402-436 | every placement counts once and gets a row |
| Refs.UpsertPlaces | meta/queries.go:421-429 | a live chunk stays where it was; a new or dead one is where the first placement that mentions it put the bytes |
| Refs.AdjustIsShift | meta/queries.go:446-453 | the loop changes each count by delta per occurrence and moves or drops no row |
| Refs.TotalRenamed | meta/queries.go:1055-1071 | occurrences do not depend on the names of the rows |
| Catalog.CatalogConsistent | meta/check.go:106-130 | in every catalog any run of transactions reaches, each count is the number of occurrences over heads, snapshots and retry roots, and everything that occurs has a row; the namespace and all snapshots are trees as long as no directory rename broke the tree |
| Catalog.StepInv | meta/queries.go:402-1103 | every transaction, whatever it renames, keeps the counts exact |
| Catalog.StepTrees | meta/queries.go:402-1103 | a transaction keeps the namespace and the snapshots trees if and only if it is not a directory rename that cannot |
| Catalog.PublishInv | meta/queries.go:470-524 | publishing transfers the references of the old head |
| Catalog.PublishedIsLive | meta/queries.go:470-524 | every chunk of a published version has a live row |
| Catalog.CommitOpInv | meta/write_ops.go:182-242 | committing an operation, with or without a retry root, keeps counts exact |
| Catalog.CommittedResult | meta/write_ops.go:182-242 | a committed operation owns the version now at its path, with a retry root exactly when one was asked for; other operations and roots stay |
| Catalog.RetryAnswersTheSame | meta/write_ops.go:182-242 | a committed operation that is retried with any arguments, after any other transactions, changes nothing and answers the version it published, still there with its extents and, with a retry root, with live chunks, until an expiry at or after the time the root is kept until |
| Catalog.UnlinkInv | meta/queries.go:898-933 | unlinking gives back exactly the head's references |
| Catalog.RenameTxInv | meta/queries.go:939-1103 | renaming a file or a subtree, replacing or not, rows beneath case variants taken along or not, the tree kept or not, keeps counts exact |
| Catalog.CreateSnapshotInv | meta/queries.go:781-839 | a snapshot takes one reference per occurrence of every head |
| Catalog.DeleteSnapshotInv | meta/queries.go:853-879 | deleting it gives them back |
| Catalog.SnapshotRoundTrip | meta/queries.go:781-879 | creating and deleting a snapshot is the identity on the catalog |
| Catalog.ExpireInv | meta/write_result_retention.go:19-71 | expiry never fails on a reachable catalog and releases exactly what the due roots held |
| Catalog.ExpireTwice | meta/write_result_retention.go:16-18 | a second expiry releases nothing |
| Catalog.CollectInv | meta/queries.go:555-617 | collection spares whatever occurs and whatever is pinned |
| Catalog.DropVersionsInv | meta/version_gc.go:14-30 | deleting unowned versions changes no count |
| Catalog.RetireInv | meta/jobs.go:406-465 | retirement is refused exactly for a job destination or while something referenced lies there, and never loses a referenced chunk |
| CatalogStore.Store.Publish | meta/queries.go:470-524 | the loops are the publish step; a refusal changes nothing |
| CatalogStore.Store.CommitOp | meta/write_ops.go:182-242 | the transaction is the commit step |
| CatalogStore.Store.Rename | meta/queries.go:939-1103 | the row-by-row rename is the rename step on every catalog, case variants and refused collisions included |
| CatalogStore.Store.CreateSnapshot | meta/queries.go:781-839 | the pass over the heads, in any order, is the snapshot step |
| CatalogStore.Store.DeleteSnapshot | meta/queries.go:853-879 | the pass over its rows is the deletion step |
| CatalogStore.Store.Unlink | meta/queries.go:898-933 | the transaction is the unlink step |
| CatalogStore.Store.ExpireResults | meta/write_result_retention.go:19-71 | root by root, in any order, is the expiry step; one root that does not own its result fails all of it |
| CatalogStore.AdjustAll | meta/queries.go:805-831 | adjusting version by version, in any order, shifts each count by its occurrences |
| Pins.PinSafety | server/pin.go:42-75 | from a successful pin until release, in every interleaving with publication, unlinking, collection, relocation and retirement, the row exists and its vlog is not retired |
| Pins.StepInv | server/pin.go:14-101 | every locked section keeps the invariant |
| Pins.GcInv | server/server.go:1096-1117 | collection under the pin lock spares every held chunk |
| Pins.RetireInv | server/compaction.go:312-345 | retirement under the pin lock leaves a vlog with a pinned row alone |
| Pins.TransactKeeps | meta/queries.go:402-1050 | only collection and retirement delete chunk rows, and none points into a retired vlog |
| Pins.OverlappingCallsLoseThePin | server/pin.go:60-70 | two overlapping calls of one owner, a publication between them and an unlink after them leave a held chunk unpinned, and collection deletes its row |
| Epochs.VlogFence | meta/placement_epoch.go:12-77 | any change of a vlog's row, shards, plogs, disks or nodes strictly raises its generation, which never goes back |
| Epochs.PlogFence | meta/placement_epoch.go:12-77 | the same for a plog and its mappings |
| Epochs.DiskFence | meta/disk_epoch.go:13-44 | a disk changed, deleted or inserted again never carries an old stamp |
| Epochs.VlogThroughout | meta/placement_epoch.go:12-77 | a generation equal at both ends of a run was unchanged all the way |
| Epochs.DiskThroughout | meta/disk_epoch.go:11-44 | an equal stamp means the same disk all the way, although ids come back |
| Epochs.MoveIsFenced | meta/disks.go:163-225 | a move that succeeds means nothing its tokens stand for changed at any time since they were captured |
| Epochs.MoveKeepsApart | meta/disks.go:192-199 | a move never puts two shards of a vlog on one disk |
| Epochs.ReplaceIsFenced | meta/queries.go:340-375 | a shard replacement that succeeds means the same of its tokens |
| Epochs.ReplaceKeepsApart | meta/queries.go:340-375 | a replacement keeps shards on separate disks and repoints exactly that shard |
| Epochs.ResolveIsFenced | meta/relocation_outcome.go:21-34 | an answer means nothing has changed since the generations it matched; after a move that took, the source is never the answer |
| Retention.ScheduleIndependent | meta/snapshot_retention.go:66-114 | expiring at one time and again later leaves exactly what expiring once later leaves |
| Retention.Expire | meta/snapshot_retention.go:84-109 | one pass deletes exactly the snapshots that are not in the future, not in the continuous window, and not the newest of a day or week in its window |
| Retention.SeenIsNewest | meta/snapshot_retention.go:93-103 | in listing order, a bucket not seen yet is the newest of its bucket |
| Retention.BucketIsFloor | meta/snapshot_retention.go:86-92 | buckets are half-open intervals, for times before the epoch too |
| Packing.PromotablePrefix | server/promotion.go:258-282 | the longest of the prefixes with least padding among those that fill a row; nothing exactly when none does |
| Packing.PromotedRows | server/promotion.go:258-282 | whole rows with less than one row of padding |
| Packing.PaddedRowLen | server/promotion.go:239-248 | the least number of whole rows that holds all records |
| Packing.PackRows | server/promotion.go:184-205 | every record at its offset, then zeros to the row boundary |
| Packing.PlacesTile | server/promotion.go:185-197 | the places are disjoint, consecutive and inside the rows |
| Rebalance.MoveNumbers | server/maintenance.go:1132-1133 | a move conserves the total and lowers the sum of squares by 2 * size * (gap - size) |
| Rebalance.SpreadNeverGrows | server/maintenance.go:1122-1133 | a move that does not overshoot keeps every load between the old extremes |
| Rebalance.LegalProgress | server/maintenance.go:1089-1137 | a legal move never raises the sum of squares and lowers it by at least 2 when 0 < size < gap |
| Rebalance.PairStep | server/maintenance.go:1089-1137 | between two disks, the move the pass chooses swaps the loads once and again if the busier disk holds a shard as large as the gap, and else lowers the sum of squares |
| Rebalance.LoneShardBounces | server/maintenance.go:1036-1049 | on two disks with one shard larger than the band, a pass makes exactly as many moves as the cap allows, whatever the cap |
| Rebalance.Balancer.RebalanceUncapped | server/maintenance.go:1036-1049 | without a cap, and with no shard empty or larger than the band, the pass ends, settled, with the same guarantees |
| Rebalance.Balancer.DiskExtremes | server/maintenance.go:1069-1080 | a busiest and an idlest disk |
| Rebalance.Balancer.Destination | server/maintenance.go:1110-1121 | the lightest disk that holds no shard of the vlog, if there is one |
| Rebalance.Balancer.MoveShard | server/maintenance.go:1129-1135 | loads stay the sums of what lies on each disk, one shard of a vlog per disk |
| Rebalance.Balancer.RebalanceOne | server/maintenance.go:1089-1139 | moves the largest shard that may move to the lightest disk that may take it; none moves exactly when every shard is busy or stuck |
| Rebalance.Balancer.Turn | server/maintenance.go:1037-1049 | one turn of the loop: nothing moves only when settled or when the copy fails; a move keeps shards, total and spread, and two disks that swap loads go on doing so |
| Rebalance.Balancer.Rebalance | server/maintenance.go:1002-1054 | over a pass: no shard lost, total conserved, spread never grown, sum of squares never raised, one shard of a vlog per disk, at most the cap of moves, and settled when it stops early; on two disks with nothing in the way a pass that may make more moves than half the sum of squares makes all of them if and only if the busier disk ends up holding a shard as large as the gap |
| Coordinator.PublishedLast | durability/coordinator.go:63-111 | whenever publication ran, the whole trace is one admission, each vlog synced and recorded with exactly the prefix its sync returned, one verification and one publication |
| Coordinator.Transaction.Step | durability/coordinator.go:63-111 | one effect per step, none after an error or at the end, and the trace is exactly what the phase stands for |
| Coordinator.Commit | durability/coordinator.go:115-123 | success takes exactly 2n + 3 effects for n vlogs |

## Assumptions

- Paths reach the namespace in canonical form; components `.` and `..` are gone by then.
- Storing bytes cuts them into chunks that tile them; where the cuts fall is not modelled.
- Base chunks of a splice have positive length.
- Row ids the database assigns are unused; plog and vlog ids are never reused, disk and node ids may be.
- Placements lie in vlogs that exist when they are published, as the verification step before
  publication checks (`server/publication.go:122-125`).

## Left out

- Journal bytes: the encoding of the journal file and its SHA-256 are represented by the decoded record
  and a torn state, the identity digest by the bytes it covers.
- `RebindDiskUID`, which rewrites the superblock outside the journal.
- PlogModel.Create: the superblock is already durable; a crash before that is not modelled.
- PlogModel.Plog.Open: the superblock is a sector of bytes; parsing and checking it, and a crash before the superblock of a new file is durable, are not modelled.
- `RecoverHashes`, `Scrub` and `Verify` of the physical log; the per-read cache of hash sectors.
- The digest and cipher functions, Reed-Solomon and chunk boundary choice: library or foreign code.
- Errors of chunk reads in the write cache other than "the store does not answer".
- EnsureWrite on erasure-coded logs is modelled as row assembly followed by the row loop, not as one loop.
- ReconcileShardLengths at mount: the mirror model starts from mounted replicas.
- Liveness of the mirror protocol: that a waiting append ends is not stated.
- Extent lengths: a file version is the sequence of its chunks.
- Leases, job rows other than destinations, file modification times in version rows, and the SQL text.
- ListDir, StatPath and SetMtime: single lookups on rows the tree invariant describes.
- Catalog.DropVersionsInv: the rows the LIMIT selects are a parameter; that they are the lowest ids is not stated.
- Rebalance.Balancer.RebalanceUncapped: only where such a pass ends for certain. When else it ends is stated exactly for
  two disks with nothing in the way (`Balancer.Rebalance`), not for more.
- Handle reaping, maintenance scheduling, drain and reprotect jobs, gRPC, WebDAV, FUSE and the command line.
