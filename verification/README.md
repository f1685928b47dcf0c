# tzip, modelled and verified in Dafny

tzip archives directory trees into ZIP files. Its fast paths reorder, coalesce, cache and
parallelise work whose meaning is simple: read each file, encode it, write it. This project models
those paths in Dafny and proves that they keep that meaning, for every layout, schedule and
completion order, and that the archive reads back as the files that went in.

`dafny verify dfyconfig.toml` checks everything. Code of the program that works by updating state is
modelled by classes and methods with loops, each proved against a specification function; the
theorems are lemmas about those functions.

## Structure

| files | subject |
|---|---|
| `BulkPlan`, `BulkReader`, `BulkMeaning` | the raw APFS bulk reader: extent tasks, coalesced runs, scatter, shipping |
| `ForkReader` | the per-file reader of the volume library, compared with the bulk reader |
| `AlignedReader`, `BlockCache` | the block-aligned device reader and its sharded FIFO cache |
| `UringBatch` | the io_uring batch reader against an adversarial kernel |
| `LinuxExtents` | the Linux extent-order reader, blocking and io_uring passes |
| `Pipeline`, `PipelineLaws`, `PipelineRuns` | the threads and channels as a transition system; termination, conservation |
| `PipelineHangs` | which configurations can hang, exactly, and progress for all others |
| `Splitter`, `Reorder` | the bulk splitter and the sorting writer loop |
| `PipelineArchive`, `EndToEnd` | from runs to archives, and from archives back to the files |
| `ReaderBridge` | the concrete readers as readers of the pipeline, and the walk as their source |
| `ZipWriter`, `ZipReader`, `ZipRoundTrip` | the ZIP writer, a reference reader written from PKWARE APPNOTE 6.3.10, and the round trip |
| `Encoder`, `Ae2` | encoding one file, the AE-2 envelope, extraction |
| `DosTime`, `Glob`, `WalkOrder` | DOS timestamps, exclude patterns, order of the batch walk |
| `OidCache`, `WalkDir` | path resolution with its cache, the raw walk |
| `Bytes`, `Items`, `Sequences`, `StableSort` | shared definitions |

## Assumptions

* Block sizes are powers of two, so shifts and masks are the divisions and roundings written here.
* The device and the files do not change during a read; lookups of paths, inodes and extents are
  true answers about the volume.
* An extent's address computation does not exceed 64 bits (`Addressable`), and archives are shorter
  than 2^64 bytes.
* `BulkRefinesReference` asks for files whose extents do not map one byte to two places (pairwise
  disjoint ones do not) and of which some extent starts inside the file unless it is empty
  (`Regular`). That the device covers the extents is not assumed but concluded from a read that
  succeeds.
* A read of n > 0 bytes completes with 1 to n of the bytes there, with 0 exactly at the end of the
  file, or with an error; a submit takes the whole queue; a wait yields at least one completion.
* Compression, checksum, key derivation, block cipher and authentication code are arbitrary
  functions of the right output lengths. The salt of each entry is arbitrary in the end-to-end
  theorem; identical archives need an encoder that is a function of the file, hence no password.
* Other threads appear as adversaries: other readers' cache insertions are an arbitrary script or an
  arbitrary agreeing growth, and the pipeline's events interleave in any order.

## Where the code differs from what it says

* A time before 1980 is meant to become 1980-01-01 00:00 (`src/walker.rs:226-228`, and the same word
  in `src/raw_apfs.rs:821`), but the word written decodes to day 0 of January 1981
  (`DosTime.ClampIsNotTheEpoch`).
* A non-empty file without an extent that starts inside it is shipped as an empty buffer instead of
  zeros (`BulkMeaning.ShipsContent`, `BulkMeaning.SparseFileShipsNothing`).
* In streaming mode, which is the default, the program can hang. When the bridge between walker and
  readers finds no reader left, it stops receiving and joins the walker (`src/pipeline.rs:386-402`),
  but still holds the receiving end of the walker's channel, so the walker blocks in its send once
  that is full. This can happen, if and only if the bulk path is off and there are at least
  `read_jobs + max(2 * read_jobs, 64) + 2` files: when failures end all readers, or all workers and
  then the readers, and without any failure when there is no worker (`PipelineHangs.HangsExactly`,
  `PipelineHangs.FaultFreeHangsExactly`).
* A raw bulk reader that fails leaves by `?` without returning its volume (`src/raw_apfs.rs:928`).
  With more chunks than volumes, of which there are at most 32 (`src/pipeline.rs:161`), the remaining
  readers can wait for a volume forever (`PipelineHangs.DryPool`).
* The comment at `src/io_uring_src.rs:74-77` says that a buffer lives until its read completes. On an
  early stop or an error the buffers are dropped while reads are in flight (`UringBatch.EarlyStop`).
* `--jobs 0` is accepted and starts no worker. Sorted, bulk and small streaming runs then end with
  success and an empty archive; a streaming run without the bulk path and with at least the above
  number of files can also hang (`PipelineArchive.UnstaffedOutcome`). `--read-jobs 0` is refused by
  `src/cli.rs:256-258`.
* The per-file reader leaves a gap after the last extent unwritten, the bulk reader fills it with
  zeros (`ForkReader.BulkAgreesWithFork`).
* With `--sort`, one file dropped by the raw bulk reader silently cuts the archive at its place
  (`PipelineArchive.SortedRun`).
* Sorted archives are reproducible only while no two different files share an archive name
  (`WalkOrder.WalkOrderIsFixed`): the raw walker searches several roots in parallel.
* The io_uring path stops at the size recorded by the walk, blocking reads run to the end of the
  file, so the two differ exactly on files that grew (`LinuxExtents.RingAgreesWithBlocking`).
* `?` is documented as one character and matches one byte (`Glob.QuestionIsOneByte`).
* A cache shard of capacity 0 still keeps one block (`BlockCache.Shard.Put`).
* Names of 64 KiB or more are written with a wrapped length and break the archive
  (`ZipRoundTrip.ParseArchive`).

## Model

| member | source | states |
|---|---|---|
| `BulkMeaning.BulkRefinesReference` | src/raw_apfs.rs:901-1359 | Over all windows, the multiset of files shipped equals the reference meaning of every item that resolves, each once, under its own index: symbolic links, compressed files and files whose extents cannot be looked up as the volume library reads them, all others as zeros of their size overlaid by their extents' disk bytes |
| `BulkMeaning.WindowRefinesReference` | src/raw_apfs.rs:1079-1351 | The same for one window, for every disk and every extent layout that is free of conflicts; the reference decides by the inode alone which files are read by extents |
| `BulkMeaning.ShipsByKind` | src/raw_apfs.rs:1087-1351 | What goes out for a file in the terms of its inode: a symbolic link, a compressed file and a file without known extents as the volume library reads it, an empty file empty; under its own index, path and name, with its real size unless it is a link or compressed |
| `BulkMeaning.ShipsMapped` | src/raw_apfs.rs:1131-1313 | For every extent layout, conflicts included: a file read by extents goes out empty if none with bytes starts inside it, and otherwise in its full length, each byte being the device's at `phys_block * block_size + (p - logical_addr)` for some extent that covers p, or zero where none does |
| `BulkMeaning.ShipsContent` | src/raw_apfs.rs:1154-1172 | A non-special file is shipped with its content if and only if it is empty or some extent starts inside it; otherwise an empty buffer goes out |
| `BulkMeaning.SparseFileShipsNothing` | src/raw_apfs.rs:1284-1313 | A concrete four-byte file without extents for which nothing but an empty buffer is shipped |
| `BulkMeaning.BulkReadAll` | src/raw_apfs.rs:901-936 | Windows of 512: on success exactly the windows' outputs are sent in order, otherwise a prefix of them; a device error needs a device that is too short for some extent or reports an error, and success needs one that holds them all |
| `BulkMeaning.WindowsOf512` | src/raw_apfs.rs:910-930 | Up to 512 items are one window, and more are the window of the first 512 followed by the output of the rest |
| `BulkPlan.ResolveNext` | src/raw_apfs.rs:976-1045 | A job is kept, after those before it and with its index, item, object and inode, if and only if its path and then that object's inode are known |
| `BulkPlan.StampDecodes` | src/raw_apfs.rs:1080-1103 | The stamped words decode to the inode's nanoseconds cut to a whole and even second, if and only if that lies in 1980 through 2107; the size becomes the inode's for files that are neither links nor compressed |
| `ForkReader.ReadFileData` | vendor/apfs/src/extents.rs:26-128 | Reading one file by its extents gives the bytes of the first extent in logical order that covers them, zeros in gaps, and nothing after the last extent; it fails only if the device errs or does not hold an extent |
| `ForkReader.ForkIsContent` | vendor/apfs/src/extents.rs:26-128 | Without conflicts that is the file's content, up to where its extents reach |
| `ForkReader.BulkAgreesWithFork` | src/raw_apfs.rs:1079-1313 | The bulk reader ships what the per-file reader reads, if and only if the extents reach the end of the file, or, when none starts inside it, do not reach into it at all |
| `BulkReader.BulkReadWindow` | src/raw_apfs.rs:941-1359 | One window through planning, sorting, coalescing, reading, scattering and the final pass sends exactly `WindowOutput`, or a prefix of it on a closed channel or a device error; a device error needs a device that is too short or reports an error. `ShipsByKind` and `ShipsMapped` say what each file in `WindowOutput` is |
| `BulkReader.Coalesce` | src/raw_apfs.rs:1196-1222 | A run is a non-empty consecutive group; it covers each of its tasks, ends where one of them ends, is no longer than max(cap, first task) and no longer than the task bytes plus 262144 per gap, and it is maximal |
| `BulkReader.PlanFile` | src/raw_apfs.rs:1150-1181 | The tasks of a file are those of its extents that start inside it, clipped to its size, and `remaining` is their summed length |
| `BulkReader.BuildSlots` | src/raw_apfs.rs:1078-1181 | Slots in item order with zeroed buffers; all tasks of all files; each slot's `remaining` equals what its tasks owe it |
| `BulkReader.Scatter` | src/raw_apfs.rs:1239-1272 | For every prefix of the tasks each slot's `remaining` is the summed length of its tasks to come and its buffer is the image of those done; so no subtraction underflows, every slice is in bounds, and no shipped slot is touched again |
| `BulkReader.ReadRuns` | src/raw_apfs.rs:1195-1274 | The runs cut the sorted tasks into consecutive groups that cover each task once; when the device holds them, every file with tasks has been shipped |
| `BulkReader.ShipRest` | src/raw_apfs.rs:1284-1351 | Files not yet sent go out in slot order; `ShipsByKind` says that these are the empty buffers and the per-file reads of symbolic links, compressed files and files without known extents |
| `BulkReader.SortedTasks` | src/raw_apfs.rs:1187 | Sorting by disk offset keeps every file's tasks and the bytes they owe |
| `BulkPlan.AnyOrderIsFile` | src/raw_apfs.rs:1154-1172 | Applying a file's extent tasks in any order yields the file's content, when its extents do not map one byte to two places |
| `BulkPlan.ImageOrder` | src/raw_apfs.rs:1239-1246 | Two orders of the same conflict-free tasks fill a buffer alike |
| `BulkPlan.DisjointNoConflict` | src/raw_apfs.rs:1154-1172 | Pairwise disjoint logical ranges are free of conflicts |
| `BulkPlan.ShippedOnce` | src/raw_apfs.rs:1247-1272 | The order in which slots are shipped contains every slot exactly once |
| `StableSort.SortLaws` | src/linux_raw.rs:145 | The sort is sorted, a permutation, and keeps the order of equal keys |
| `StableSort.SortUnique` | src/raw_apfs.rs:1187 | These laws determine the result, so any stable sort computes the one modelled |
| `AlignedReader.AlignedRawReader.Read` | src/raw_apfs.rs:198-274 | Returns exactly `device[pos .. min(pos + want, len)]`, nothing past the end, and advances by its length, for any true cache content, any interleaving of other readers' puts, any split of the physical reads and any retries; fails only if the device does |
| `AlignedReader.AlignedRawReader.ReadThrough` | src/raw_apfs.rs:226-273 | The widened, large and short-tail reads give the same slice; a read of less than 262144 bytes puts every whole block of the 262144 bytes into the cache, a larger or failed one nothing |
| `AlignedReader.RequestsAligned` | src/raw_apfs.rs:57-61 | Requests to the device start at a multiple of the block size, are a multiple of it long and cover what was asked for, by less than a block more at the end |
| `AlignedReader.AlignedRawReader.Fill` | src/raw_apfs.rs:237-250 | Interrupted and partial reads leave the scratch buffer holding the device's bytes up to the length or the end |
| `AlignedReader.AlignedRawReader.CacheBlocks` | src/raw_apfs.rs:251-266 | Puts every whole block of a widened read, in order, and nothing else, and keeps the cache true to the device |
| `AlignedReader.AlignedRawReader.ReadRawAt` | vendor/apfs/src/lib.rs:693-698 | Reads exactly the requested bytes at an offset, or fails when the device ends early or errs |
| `AlignedReader.HitYields` | src/raw_apfs.rs:211-224 | A request whose aligned span is one block is answered in full by that cached block |
| `AlignedReader.Yields` | src/raw_apfs.rs:267-272 | What a physical read of at least the aligned span yields past the position is the device's slice there |
| `BlockCache.Shard.Put` | src/raw_apfs.rs:124-141 | Wrong-sized and known blocks change nothing; otherwise the shard holds exactly the latest `Room()` insertions, oldest evicted first, each with its data |
| `BlockCache.Shard.MakeRoom` | src/raw_apfs.rs:131-137 | Eviction removes from the front until one more fits and keeps `order` duplicate-free and equal to the keys |
| `BlockCache.SharedBlockCache.Get` | src/raw_apfs.rs:149-151 | Under any interleaving a hit is the device's own block at that offset |
| `BlockCache.SharedBlockCache.Put` | src/raw_apfs.rs:152-154 | A true block is stored in the shard of its offset; all shards stay valid and true |
| `BlockCache.SharedBlockCache.ShardOf` | src/raw_apfs.rs:145-148 | A block can only be in the shard whose number is the block's modulo 16 |
| `BlockCache.SharedBlockCache.constructor` | src/raw_apfs.rs:159-175 | Sixteen empty shards of max(total / 16, 1) blocks |
| `UringBatch.ReadBatch` | src/io_uring_src.rs:50-185 | For every behaviour of the kernel: a batch that ends without an early stop or error has emitted, up to order, exactly (i, first min(len, file size) bytes) for every job i, leaves no read in flight, and the kernel has not failed; in every case only right results were emitted, none twice; an error needs a failure of the kernel; the loop terminates |
| `UringBatch.EarlyStop` | src/io_uring_src.rs:74-77 | With two one-byte files and a receiver that is gone, the batch stops while a read is still in flight, so its buffer does not live until its read completes |
| `UringBatch.TopUp` | src/io_uring_src.rs:101-118 | Submission keeps the queue within 128 and in step with the jobs in flight, no push fails, and it ends with 128 reads in flight or nothing left to submit |
| `UringBatch.Drain` | src/io_uring_src.rs:137-167 | Accounting for completions finishes, advances or collects each job; finished jobs are emitted with their expected bytes; work strictly decreases |
| `UringBatch.Resubmit` | src/io_uring_src.rs:169-181 | Every short read is queued again from where it stands, and the queue has room for all of them |
| `UringBatch.AfterKernel` | src/io_uring_src.rs:124-135 | Any kernel step keeps the invariant: bytes already read stay, every completion's bytes are in place |
| `UringBatch.Counting` | src/io_uring_src.rs:95-108 | In every state done + inflight == next, and the work left is not negative |
| `UringBatch.AllDone` | src/io_uring_src.rs:120-123 | The exit with nothing in flight happens only when all jobs are finished |
| `UringBatch.LandedFrom` | src/io_uring_src.rs:78-93 | A completed read of the pending request extends the file prefix in the buffer without touching what was there |
| `UringBatch.AllResults` | src/io_uring_src.rs:50-53 | All jobs' results are the list of jobs in order, each once |
| `LinuxExtents.SweepWindow` | src/linux_raw.rs:107-145 | Per window the read order ascends in physical offset, is a permutation, and keeps walk order for equal offsets |
| `LinuxExtents.KnownFirst` | src/linux_raw.rs:107-145 | Files whose first physical offset is known (and not 2^64 - 1) come first, ascending; files that did not open or have no known offset come last |
| `LinuxExtents.WindowsOf256` | src/linux_raw.rs:107 | Up to 256 items are one window in disk order, and more are the first 256 in disk order followed by the rest |
| `LinuxExtents.ReadMeans` | src/linux_raw.rs:147-227 | One item is read by path when it does not open, otherwise from its handle: to the end when blocking, to the recorded size through the ring; it is sent under its own index |
| `LinuxExtents.SweepRefinesWalk` | src/linux_raw.rs:99-220 | Reading in sweep order gives, up to order, what reading in walk order gives |
| `LinuxExtents.BlockingAll` | src/linux_raw.rs:204-220 | Sends each (index, item) once in sweep order with its bytes; stops early only on a read error at the next item or a closed channel |
| `LinuxExtents.BlockingWindow` | src/linux_raw.rs:204-220 | The same for one window |
| `LinuxExtents.RingWindow` | src/linux_raw.rs:147-202 | Path reads of unopenable files plus the io_uring batch send every item of the window exactly once, and if the window stops early, none more than once; an error needs an unreadable file or a failure of the kernel |
| `LinuxExtents.RingAll` | src/linux_raw.rs:107-202 | The same over all windows |
| `LinuxExtents.RingAgreesWithBlocking` | src/linux_raw.rs:147-220 | The two paths ship the same multiset if and only if no open file is longer than its recorded size |
| `Splitter.Split` | src/pipeline.rs:547-566 | The chunks sent concatenate to the feed, number at most n, and each has ceil(total / n) items except that the last takes what is left; as many are sent as that takes |
| `Splitter.ChunksLaws` | src/pipeline.rs:552-564 | Chunks hold every item once in feed order; at most n, none empty, none longer than (total + n - 1) / n |
| `Splitter.ChunkSizes` | src/pipeline.rs:552-564 | Chunk i has min(share, total - i * share) items with share = (total + n - 1) / n, and the shares of all chunks but the last do not exhaust the total while those of all do |
| `Pipeline.StuckMeansFinished` | src/pipeline.rs:325-704 | In any state, if no thread can step then the program is over, or the walker waits for a bridge that waits for it, or readers wait for volumes that nobody returns |
| `Pipeline.JoinedBlocks` | src/pipeline.rs:695-704 | The joins block at a running thread unless one joined before it has failed |
| `PipelineHangs.HangsExactly` | src/pipeline.rs:361-405 | Some run ends with no event possible and the program not over, if and only if the configuration streams without the bulk path and has at least readers + max(2 * readers, 64) + 2 items, or can have more chunks than volumes; without workers the chunks are those of the whole list, because a failed walk then ends the program |
| `PipelineHangs.FaultFreeHangsExactly` | src/pipeline.rs:386-402 | Some run without any failing thread hangs, if and only if it is the first of these and there is no reader or no worker |
| `PipelineHangs.HangNeeds` | src/pipeline.rs:325-704 | Every single hang, by its own run, needs the condition |
| `PipelineHangs.BlockWalker` | src/pipeline.rs:386-402 | A run that leaves the walker blocked behind a bridge that joins it; no thread has to fail when there is no worker or no reader |
| `PipelineHangs.DryPool` | src/raw_apfs.rs:916-931 | A run in which failed readers have kept all volumes and the first reader, which is joined first, waits for one |
| `PipelineHangs.CanFinish` | src/pipeline.rs:325-704 | From every reachable state the threads can go on without faults until the program is over: whenever the configuration cannot hang, and otherwise as long as no thread has failed and there are a reader and a worker |
| `PipelineLaws.EveryEventGood` | src/pipeline.rs:339-679 | No event adds an occurrence of an entry; an event keeps them all, unless it is a fault or a send nobody hears; every event lowers a measure |
| `PipelineRuns.RunsEnd` | src/pipeline.rs:325-704 | No interleaving, faults and hangs included, has more than 16 events per item plus one per reader and worker plus six |
| `PipelineRuns.ChannelsBounded` | src/pipeline.rs:325-331 | In every run, faults included, the feed and raw channels hold at most max(2 * read_jobs, 2), the encoded one max(2 * cpu_jobs, 2), the chunks max(read_jobs, 1) and the walker's max(2 * read_jobs, 64) |
| `PipelineRuns.NobodyUnheard` | src/pipeline.rs:539-652 | While no thread has failed, no send fails |
| `PipelineRuns.KeepsOrder` | src/pipeline.rs:539-704 | Without faults a thread ends only after its sources are closed and empty |
| `PipelineRuns.SuccessExactly` | src/pipeline.rs:695-706 | A run gets to finishing the archive if and only if the program is over and no thread has failed; a run with a failed thread ends with an error and no end record |
| `PipelineRuns.Conservation` | src/pipeline.rs:325-704 | In a successful run, entries at the writer plus entries of dropped items are exactly the entries of the items fed, for every interleaving |
| `PipelineRuns.ArrivedWereFed` | src/pipeline.rs:325-704 | In every run, faults, missing threads and hangs included, arrived and dropped entries are among those fed, none more often than it was fed |
| `PipelineArchive.EverythingArrives` | src/pipeline.rs:325-704 | In a successful run without dropped items, all items arrive if and only if nothing was fed or there are a reader and a worker |
| `PipelineArchive.EverythingIndexed` | src/pipeline.rs:580-652 | There is one entry for each item: the encoding of what was read for that item, under the item's place in the walk |
| `PipelineArchive.Unstaffed` | src/pipeline.rs:580-652 | Without a reader or without a worker no entry ever arrives |
| `PipelineArchive.UnstaffedOutcome` | src/pipeline.rs:361-405 | Then a run that comes to its end without a failed thread succeeds with an empty archive, every success has one, and some run without faults hangs instead, if and only if it streams without the bulk path and has enough items |
| `PipelineArchive.SortedRun` | src/pipeline.rs:660-679 | A successful sorted run writes the items in walk order up to and excluding the first dropped one, for every schedule |
| `PipelineArchive.SortedRunsAgree` | src/pipeline.rs:654-679 | Any two successful sorted runs over the same items without dropped ones, with any numbers of readers and workers, bulk or not, give identical archive bytes |
| `PipelineArchive.AnyWalkAnySchedule` | src/pipeline.rs:241-262 | The same when the walkers found the files in different orders, if no two different files share a name |
| `PipelineArchive.DefaultAndRingAgree` | tests/linux_extent.rs:92-116 | Default and io_uring reading give identical sorted archives when no file grew since the walk |
| `PipelineArchive.SortedRoundTrip` | src/pipeline.rs:660-706 | A sorted run's archive parses to all items' entries in walk order, if and only if the names fit |
| `PipelineArchive.UnsortedRoundTrip` | src/pipeline.rs:680-706 | An unsorted run's archive parses to a permutation of the same entries, if and only if the names fit |
| `EndToEnd.Sorted` | src/pipeline.rs:325-706 | Parsing and extracting a sorted run's archive restores every file's name, time, date and bytes in walk order, if and only if names are under 64 KiB and the codec is lossless on the files; with or without a password |
| `EndToEnd.Unsorted` | src/pipeline.rs:325-706 | Without sorting, the extracted copies are a permutation of the files fed, if and only if names are under 64 KiB and the codec gives back the same collection of files; that is the case if it is lossless on each, and only then if their names differ |
| `ReaderBridge.RawReadBulk` | src/raw_apfs.rs:1363-1370 | Raw bulk reading sends the pipeline's fetch of every item that resolves, once on success and at most once in any case |
| `ReaderBridge.LinuxReadBulk` | src/linux_raw.rs:99-227 | Linux bulk reading, through the ring or blocking, sends the pipeline's fetch of every item, once on success and at most once in any case |
| `ReaderBridge.SentItemsAreRead` | src/raw_apfs.rs:976-1045 | An item that the raw walk sends is resolved by the bulk reader to the file of its archive name, unless that has no inode |
| `Reorder.WriteArrivals` | src/pipeline.rs:654-693 | The loop writes the buffer's output when sorting and the arrivals themselves when not |
| `Reorder.FirstGap` | src/pipeline.rs:660-679 | After any distinct arrivals exactly those below the first missing index are written, in index order, and exactly those beyond it wait |
| `Reorder.AllWritten` | src/pipeline.rs:660-679 | All arrivals are written if and only if their indices are 0..n, if and only if nothing waits |
| `Reorder.SortedOutputIsUnique` | src/pipeline.rs:654-679 | The sorted output does not depend on the order of arrival |
| `ZipRoundTrip.ParseArchive` | src/zipwriter.rs:77-269 | Parsing the archive of any entries with an independent APPNOTE reader gives exactly those entries (names, versions, flags, methods, times, on-wire CRC, sizes, offsets, AES field, bodies), on either side of every ZIP64 threshold, if and only if every name is shorter than 64 KiB; `EntriesAdjoin` says where they stand |
| `ZipRoundTrip.EntriesAdjoin` | src/zipwriter.rs:77-269 | No byte to spare: the first entry stands at 0, each next one 30 + name + 20 with ZIP64 sizes + 11 with AES + body after the one before, the directory where the last ends, with 46 + name + 4, 16 and 8 as ZIP64 needs + 11 with AES for each entry, and then 22 bytes, or 98 with ZIP64, to the end |
| `ZipWriter.ZipWriter.WriteEntry` | src/zipwriter.rs:77-152 | Appends exactly the local part of the entry: the output grows by 30 + name + body, + 20 with ZIP64 sizes, + 11 with AES, and ends with the body; its central record is remembered with its offset |
| `ZipWriter.LocalLength` | src/zipwriter.rs:92-136 | A local part is 30 bytes, the name, 20 bytes with ZIP64 sizes, 11 with AES, and the body once, at its end |
| `ZipWriter.ZipWriter.Finish` | src/zipwriter.rs:154-269 | Appends central directory and end records; the result is `Archive` of the entries written |
| `Bytes.LittleEndian` | src/zipwriter.rs:92-134 | Integers of 1, 2, 4 and 8 bytes in headers have their least significant byte first |
| `ZipRoundTrip.LocalReads` | src/zipwriter.rs:77-134 | A reader gets back the entry from its local header at its offset |
| `ZipRoundTrip.CentralReads` | src/zipwriter.rs:160-222 | A reader gets back the headline of the entry and the length of its central header |
| `ZipRoundTrip.ExtraReads` | src/zipwriter.rs:183-222 | The extra fields resolve to the real sizes and offset and to the AES parameters, for all combinations |
| `ZipRoundTrip.TrailerReads` | src/zipwriter.rs:224-266 | The end records lead the reader to the central directory, with or without ZIP64 |
| `ZipRoundTrip.ParsedNamesFit` | src/zipwriter.rs:77-134 | No archive parses to a name of 64 KiB or more |
| `Encoder.EncodeOne` | src/pipeline.rs:919-971 | Compresses, seals with a non-empty password, and fills the entry's fields |
| `Encoder.EntryFields` | src/pipeline.rs:928-971 | The reader's entry in the codec's terms: flags 0x800, + 1 with a non-empty password, + 2 with the codec's bit 1; versions the codec's but at least 45 in the directory and 20, or 45 with ZIP64 sizes, in the local header; method 99 and 28 bytes more with a password; CRC only without one |
| `Encoder.ExtractRecovers` | src/pipeline.rs:919-971 | What extraction makes of a file's own entry depends on the codec alone, not on password, salt or place in the archive, and the entry carries the file's name, time, date and size |
| `Encoder.ExtractIsInverse` | src/pipeline.rs:919-971 | Extracting an encoded entry recovers the file if and only if the codec is lossless on it, with or without a password |
| `Ae2.Envelope` | src/pipeline.rs:941-954 | Growing the buffer, shifting it over itself and sealing in place gives the envelope of the data, which `SealBits` describes bit by bit; an empty password is refused |
| `Ae2.EncryptInPlaceWithSalt` | src/crypto.rs:74-114 | A buffer of the right length becomes the envelope of its middle part, in the bits of `SealBits`; any other is refused unchanged |
| `Ae2.SealBits` | src/crypto.rs:82-113 | The envelope is salt, verifier, data with exactly those bits flipped that are set in the first key's cipher blocks number 1, 2, 3 and so on, and ten bytes of the second key's code over that ciphertext |
| `Ae2.OpensIffSealed` | src/crypto.rs:1-15 | A decryptor accepts bytes as some data if and only if they are the envelope of that data, the one of `SealBits`, under their own salt |
| `Ae2.CtrTwice` | src/crypto.rs:94-104 | Applying the keystream twice gives the data back; which keystream it is, `SealBits` says |
| `DosTime.CivilCorrect` | src/walker.rs:239-251 | Day 0 is 1970-01-01, every day is a proper date, each next day is the Gregorian successor; for all days |
| `DosTime.UnixToDosCorrect` | src/walker.rs:215-236 | Decoding the packed words gives the time rounded down to an even second, if and only if it lies in 1980 through 2107 |
| `DosTime.UnixToDosMonotone` | src/walker.rs:215-236 | Within that range later times never get smaller words |
| `DosTime.ClampIsNotTheEpoch` | src/walker.rs:226-228 | Times before 1980 get words that decode to day 0 of January 1981 |
| `Glob.MatchIsMeaning` | src/walker.rs:180-202 | A match is exactly a cut of the text into pieces that the pattern's bytes stand for |
| `Glob.MatchConcatenation` | src/walker.rs:180-202 | p + q matches t if and only if t splits into a match of p and a match of q |
| `Glob.ByteMeanings` | src/walker.rs:183-196 | One pattern byte: 0x2A stands for any text, 0x3F for any one byte, and each other for itself alone |
| `Glob.QuestionIsOneByte` | src/walker.rs:181-198 | n question marks match exactly the texts of n bytes |
| `Glob.Kept` | src/walker.rs:175-178 | A name is kept if and only if no pattern's meaning covers it |
| `WalkOrder.WalkOrderIsFixed` | src/walker.rs:72-82 | The sorted file list is independent of the order of discovery if and only if no two different files share an archive name |
| `WalkOrder.FirstDifference` | src/walker.rs:75-77 | At the first byte where two names differ the smaller byte comes first, and otherwise the shorter name |
| `WalkOrder.NamesAscend` | src/walker.rs:75-77 | The sorted list is a permutation in which no name stands before a smaller one |
| `OidCache.OidCache.ResolveOid` | src/raw_apfs.rs:576-633 | Whatever agreeing entries others add meanwhile: an answer is what resolving the path from the root gives, for normal paths in both directions, and the cache still agrees with the volume |
| `OidCache.OidCache.InsertChildren` | src/raw_apfs.rs:613-624 | Caching a listed directory's children keeps the agreement and covers every child |
| `OidCache.SplitNormal` | src/raw_apfs.rs:1425-1432 | The split of a normal path is its parent's path and its last name, and joining them gives it back |
| `OidCache.ChildComponents` | src/raw_apfs.rs:615-622 | A child's path has the directory's components and one more, whatever trailing slashes the directory had |
| `WalkDir.WalkDir` | src/raw_apfs.rs:749-875 | Sends the walk of the tree, cut off where the channel closes, and keeps the cache in agreement; `WalkSendsFiles` says which items that walk holds |
| `WalkDir.WalkSendsFiles` | src/raw_apfs.rs:820-874 | The names sent are distinct, and the items sent are exactly those of the files and links for which no exclude pattern means the whole archive name or the last component, each with the path of the same file, size 0, date word 0x220 and time 0 |
| `WalkDir.NamesJoined` | src/raw_apfs.rs:823-841 | The archive name is the prefix and the components with 0x2F between them, and the path the directory's path and the components, with no second slash after one at its end |
| `WalkDir.SentItemsResolve` | src/raw_apfs.rs:833-841 | The volume path of every item sent is normal and resolves to the file its archive name stands for |
| `WalkDir.FindSent` | src/raw_apfs.rs:978-990 | Resolving a sent item's path through the cache succeeds with that file, whatever the cache holds |
| `WalkDir.NameIdentifiesFile` | src/raw_apfs.rs:823-827 | Different files below one prefix get different archive names |

## Left out

- Failures of the archive file itself: the writer's output is a byte sequence that accepts everything; a failing write appears only as the pipeline's `WriteFails` event.
- Panics of threads: a panicking reader or worker is ignored when threads are joined, which is not part of this model.
- The streaming walker finds the items in a fixed order, whatever the walker threads behind it do; each root's tree is walked by one thread.
- Metadata caches, range scans and their thresholds choose between lookups that give the same answer; the model has the answer.
- The pool of open volumes outside the bulk path, statistics, progress, verbose output, readahead hints and memory mapping do not change what is read.
- Directory enumeration through the operating system, and archive prefixes of roots: the walk of the raw volume and the sort of the batch are modelled.
- The batch walk without `--sort` orders by file system path; only the sort by archive name is modelled.
- Files that change while they are read, and directory trees that change while they are walked.
- Compression codecs, parallel deflate, AES, HMAC-SHA1, PBKDF2 and CRC-32 are arbitrary functions.
- The cipher's 128-bit counter does not wrap for buffers below 2^68 bytes, so it is a plain number here.
- `.7z` output, option parsing, tuning, terminal interface, device probes and the per-file Grand Central Dispatch reader.
- BulkReader.BulkReadWindow: a destination slice is returned as a value and the run buffer is fresh for every run; reuse of one buffer is not captured.
- BulkReader.Scatter: slots are a sequence of values updated one at a time, so aliasing between slots is not captured.
- AlignedReader.AlignedRawReader.Read: the bytes read are returned instead of written to the caller's slice.
- OidCache.OidCache.ResolveOid: lookups on the volume do not err; a path with repeated or trailing slashes may be refused although it resolves.
- PipelineRuns.Conservation: of runs in which a thread ends with an error it says nothing; `ArrivedWereFed` says that nothing else than what was fed arrives.
- PipelineHangs.CanFinish: after a fault in a configuration that can hang, whether a given run still comes to its end is not characterised, only that some run does not.
