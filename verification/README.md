# Verified models of TLL's stream, ring, file, processor and rate components

TLL is a C++ library of messaging channels. This project models the parts of it whose behaviour
emerges from several functions or from several threads, and proves what they keep over every input
and every run. There is one Dafny module per component, in a file of the same name;
`dafny verify dfyconfig.toml` checks all of them.

* **Rings.** `Bytes` (little-endian integers), `RingLayout` (where records, wrap markers and free
  space lie), `ByteRing` (the single-threaded ring as a class over an array), `MemPub` (the
  publisher that evicts until its record fits), `PubSub` (publisher and lock-free subscriber, one
  load or store at a time).
* **Stream.** `StreamClient` (the client's callbacks, as functions and as the class that performs
  them in place), `StreamSystem` (the client together with the server it talks to).
* **File log.** `FileLayout` (frames, blocks, positions), `FileImage` (what a reader finds in the
  bytes, what a post makes of them and what a search and an open answer, on values), `FileLog` (the
  channel: writing, reading, seeking, opening and reopening), `LiveFile` (the byte stores of a writer
  against a reader that follows it through a mapped file), `MmapFrame` (one frame, also without the
  size marker).
* **Processor.** `Processor` (opening and closing a graph of objects from state reports), `Depth`
  (cycle check, initialisation order, dependency graph), `Chains` (chains of levels turned into
  dependencies).
* **Shared counters and wakeups.** `Stat` (double-buffered statistics), `MemEvent` (event clear and
  re-check of the in-memory channel).
* **Byte streams and rates.** `Framed` (reassembly of frames from chunks), `Rate` (token buckets).
  `Common` holds what several modules share.

Threads are modelled as interleavings of atomic, sequentially consistent steps. Files, event
descriptors and mappings are byte sequences and counters. Clocks, the outcome of child channels,
which reopen timers have fired and how many entries a byte-bounded buffer evicts are parameters or
unconstrained choices.

## What the code does not promise

These follow from the code; for each promise that fails the exact condition is proved, and an input
or a run that fails is given.

* The wrap marker is four bytes written at the tail, so the ring is sound for sizes that are 0 or 4
  to 7 modulo 8. For 1 to 3 modulo 8 the marker is written past the end (`MemPub.MarkerOverruns`).
* The publisher accepts messages of up to a quarter of the ring, but a record has to fit into half of
  it: for rings of under 96 bytes (other than 80 to 83) there are accepted messages for which the
  eviction loop never ends (`MemPub.NeverStuck`, `MemPub.StuckForever`). The subscriber's buffer is a
  quarter of the ring for message and frame together, so a message accepted by the publisher can fail
  every subscriber (`PubSub.RecordLongerThanBufferFails`, `PubSub.LongRecordFailsTheSubscriber`).
* The stream client can lose a message in three ways: it evicts an undelivered one while Overlapped; a
  reply sends it straight to Drain or WaitOnline although its buffer holds something newer; a message
  is too large for the buffer where the buffer is needed. `StreamSystem.Lossy` says exactly when: a
  step is one of these if and only if harmless steps can follow it after which a message is missing
  (`StreamSystem.LossyExactly`).
* The file's size check ignores the five bytes of the block header: a frame within five bytes of the
  block size can be written across the block boundary (`FileLayout.CrossesExactly`). A reader that
  comes to it gets an error there (`FileLog.Follow`). As long as it is the last frame the file cannot
  be opened, for reading or for append, unless the search ends before it as in the next point; a later
  post opens it again exactly if it has a place (`FileImage.LastPostDecides`,
  `FileImage.CrossingPostRefuses`). One that comes first, behind a meta frame that fills block 0, keeps
  the file closed for good (`FileImage.BadStart`). In an open file reading stops at the frame, and a
  seek fails exactly if its bisection looks at that block (`FileLog.File.Seek`,
  `FileImage.MiddleFails`). In version 0 the end of such a frame can read as a negative size, which in
  a file of about 2 GiB and more sends the search back to where no frame starts
  (`FileLayout.Rewinds`).
* When the first message does not fit behind the meta frame, the skip frame written there confuses
  `_block_seq`, which takes its size -1 for that of a data frame. With plain reads the file cannot be
  opened any more, for reading or for append. In a mapping, the default, the outcome depends on the
  last byte of the meta payload: below 0x80 (it is zero in what `_write_meta` builds) the file opens,
  but every mode of reading starts at the first message, whatever seq was asked for, and reopening for
  append cuts off every message; else only the first seq reported is wrong
  (`FileImage.SkipAfterMetaExactly`, `FileLog.File.OpenForRead`, `FileLog.File.Reopen`,
  `FileImage.LongFirstPost`).
* So what was posted is what is read back, by a reader that opens the file afterwards, exactly when
  neither happens, as far as it matters for the IO: `FileLog.PostRead` with `FileImage.Faultless`.
* Without the size marker of file version V1 a live reader can accept a wrong size of a data frame
  exactly when two bytes of its size are not zero (`MmapFrame.VersionZeroTearsExactly`), and can read
  any skip frame as a negative size that it does not expect (`MmapFrame.VersionZeroSkipTears`).
* The default of a `Max` statistic of doubles is the smallest positive number
  (`Stat.ReportedExactlyUnless`).
* The event of the in-memory channel stays raised over an empty ring, and calls of `_process` do not
  clear it, exactly after a notification that the consumer has overtaken (`MemEvent.OvertakenExactly`,
  `MemEvent.RaisedOnlyByOvertaking`). `_process` called without a wakeup can fail
  (`MemEvent.CallAlone`).
* Framing does not check that a message fits its header: a message too long for a 16 bit size is sent
  with a truncated one (`Framed.EncodeDecodes`). A bson document of size zero is delivered for ever
  (`Framed.PollStuck`).
* A bucket faster than one watermark per nanosecond can be empty with a delay of zero, and its writers
  are then told to go on (`Rate.EmptyWaitsExactly`).
* Two levels of one name in a chain overwrite each other's node, and the order can be lost
  (`Chains.DoubledLosesOrder`); the result always has a cycle and is refused later, by the processor
  (`Chains.AcceptedIsDistinct`).
* `object_depth` works on a copy of the dependency record, so the depths it finds on the way are not
  kept: only the ones stored by `init_depends` are (`known` in `Depth.ObjectDepth`).

## Model

| member | source | states |
|---|---|---|
| `RingLayout.AcceptedIsFree` | src/ring.c:78-101 | whatever `write_begin` hands out, and the place of the marker, lies in free space, clear of every live record |
| `RingLayout.LiveIsNotFree` | src/ring.c:78-117 | no byte of a live record or of its marker counts as free, on any lap |
| `RingLayout.FreeStoresKeepLayout` | src/ring.c:103-117 | stores into free space leave all live records readable |
| `RingLayout.WriteEndLayout` | src/ring.c:103-117 | marker, size and tail update extend the chain of live records by exactly the new one |
| `RingLayout.ReaderSees` | src/ring.c:128-141 | a reader standing before any live record finds that record, directly or behind one marker, and the next offset is the next record's |
| `RingLayout.ShiftKeepsLayout` | src/ring.c:164-187 | dropping the oldest record keeps the others, and head differs from tail before it |
| `ByteRing.Ring.constructor` | src/ring.c:42-57 | a new ring is the empty queue |
| `ByteRing.Ring.EmptyWhenOffsetsMeet` | src/ring.c:29-40 | head == tail exactly when the queue is empty; both are multiples of eight |
| `ByteRing.Ring.WriteEnd` | src/ring.c:103-117 | the record appended is what was put behind the reserved offset |
| `ByteRing.Ring.Write` | src/ring.c:119-126 | accepted: the queue grows by the payload; refused: nothing changes |
| `ByteRing.Ring.ReadAt` | src/ring.c:128-141 | finds the offset of the i-th record through at most one marker, nothing exactly at the tail |
| `ByteRing.Ring.Read` | src/ring.c:159-162 | the oldest payload, or none exactly when empty |
| `ByteRing.Ring.Shift` | src/ring.c:173-187 | the queue loses its first payload and the generation counts it; fails exactly when empty |
| `ByteRing.Ring.Available` | src/ring.c:189-201 | every payload up to the answer that passes the half-size test is accepted by the next write, and none more than 12 bytes longer |
| `MemPub.EmptyAccepts` | src/tll/cppring.h:123-144 | an empty ring, wherever its offsets are, accepts a record exactly when it takes at most half the ring |
| `MemPub.NeverStuck` | src/channel/pub-mem.cc:277-297 | every message that passes the size check can be placed exactly for rings of 96 bytes and more, or 80 to 83 |
| `MemPub.StuckForever` | src/tll/cppring.h:123-130 | the refusal for size does not depend on what is evicted |
| `MemPub.MarkerOverruns` | src/tll/cppring.h:146-160 | for sizes of 1 to 3 modulo 8 a sequence of accepted writes leads to a marker past the end |
| `MemPub.Publisher.EvictUntilFits` | src/channel/pub-mem.cc:285-290 | the loop ends, evicts a prefix of the queue, and evicts no record whose eviction was not needed |
| `MemPub.Publisher.Post` | src/channel/pub-mem.cc:277-297 | refused exactly above a quarter of the ring; else the queue is a suffix of the old one plus the framed message |
| `PubSub.StepKeepsInv` | src/tll/cppring.h:38-47 | every load and store of publisher and subscriber keeps ring, writer, generation and reader invariants, and records once published stay |
| `PubSub.AcceptedAreThePublishedRecords` | src/channel/pub-mem.cc:329-347 | in every interleaving the accepted records are consecutive published records, byte for byte, ending just before the iterator's generation |
| `PubSub.TornReadIsRejected` | src/tll/cppring.h:191-264 | a copy that differs from the record of the iterator's generation is rejected by the check at the end of `shift` |
| `PubSub.RecordLongerThanBufferFails` | src/channel/pub-mem.cc:329-341 | reading a live record fails exactly when the record, frame included, is over a quarter of the ring |
| `PubSub.LongRecordFailsTheSubscriber` | src/channel/pub-mem.cc:277-342 | for every ring and every record over a quarter of it that it takes, a run in which nothing is evicted and the subscriber fails |
| `StreamClient.StreamClient.constructor` | src/channel/stream-client.cc:75-164 | the client after `_open` |
| `StreamClient.StreamClient.OnActiveState` | src/channel/stream-client.cc:233-256 | the online channel comes up, with or without a last seq |
| `StreamClient.StreamClient.OnRequestActive` | src/channel/stream-client.cc:280-294 | the request is sent |
| `StreamClient.StreamClient.OnRequestFailed` | src/channel/stream-client.cc:258-267 | the channel fails, and its callbacks go on from where they were |
| `StreamClient.StreamClient.OnRequestClosed` | src/channel/stream-client.cc:268-278 | the same before the handover; ignored after it |
| `StreamClient.StreamClient.ReportOnlineNow` | src/channel/stream-client.cc:177-189 | goes to Online or Drain and reports once |
| `StreamClient.StreamClient.OnData` | src/channel/stream-client.cc:296-329 | performs the online step of the transition system in place |
| `StreamClient.StreamClient.OnReplyData` | src/channel/stream-client.cc:375-425 | performs the reply step |
| `StreamClient.StreamClient.OnRequestData` | src/channel/stream-client.cc:331-433 | performs the request step |
| `StreamClient.StreamClient.DropProcessed` | src/channel/stream-client.cc:361-364 | drops from the buffer what the request feed has delivered |
| `StreamClient.StreamClient.ProcessPending` | src/channel/stream-client.cc:435-459 | performs the pending step |
| `StreamClient.DropUpToIsSuffix` | src/channel/stream-client.cc:361-364 | exactly the leading messages up to the seq go |
| `StreamClient.OrderStep` | src/channel/stream-client.cc:280-459 | every callback keeps the order invariant, whatever the other feed does |
| `StreamClient.DeliveredIncreasesOnlineOnce` | src/channel/stream-client.cc:177-189 | for any two increasing feeds, in any interleaving and with any losses: delivered seqs strictly increase and Online is reported at most once |
| `StreamClient.Drive` | src/channel/stream-client.cc:296-459 | any callbacks on the object itself: it ends where the transition system does, delivered seqs strictly increase and Online is reported at most once |
| `StreamSystem.AnswerKeeps` | src/channel/stream-server.cc:523-632 | the server's answer, with a storage reader at the first message at or after the requested seq, keeps the system invariant |
| `StreamSystem.ReplyCases` | src/channel/stream-client.cc:375-425 | where each reply leads, and that the request feed stands at the first message at or after the requested seq unless the client has failed |
| `StreamSystem.PublishKeeps` | src/channel/stream-server.cc:734-789 | posts at any moment keep the system invariant |
| `StreamSystem.StepKeeps` | src/channel/stream-client.cc:258-459 | every step that is not a lossy one, the failing or closing of the request channel included, keeps the invariant of client, server and both feeds |
| `StreamSystem.HandoverIsGapFree` | src/channel/stream-client.cc:258-459 | in every run without a lossy step, with the request channel failing or closing at any moment, the delivered messages are at every moment a gap-free segment of the published ones, starting at the first seq at or after the requested one |
| `StreamSystem.EvictionLoses` | src/channel/stream-client.cc:322-326 | after every eviction of an undelivered message while Overlapped, harmless steps lead to a gap |
| `StreamSystem.DirectSwitchLoses` | src/channel/stream-client.cc:409-421 | after every switch past a newer buffered message, harmless steps lead to a gap |
| `StreamSystem.OversizeLoses` | src/channel/stream-client.cc:318-320 | after every drop of an oversize message that the buffer should have held, in any state, harmless steps lead to a gap |
| `StreamSystem.LossyExactly` | src/channel/stream-client.cc:296-459 | from every state of a run without lossy steps: a step is lossy if and only if harmless steps can follow it after which a message is missing |
| `StreamSystem.DirectSwitchIsReached` | src/channel/stream-client.cc:409-421 | a run that ends before a reply that loses a message |
| `StreamSystem.OverlappedLossIsReached` | src/channel/stream-client.cc:318-326 | a run that ends where an eviction, or an oversize message, loses one |
| `FileLayout.FrameReads` | src/channel/file.cc:998-1084 | a stored frame reads back as its size and its message |
| `FileLayout.SkipReads` | src/channel/file.cc:998-1033 | a skip frame reads as one |
| `FileLayout.BlankReads` | src/channel/file.cc:998-1033 | blank space reads as "nothing yet" |
| `FileLayout.FrameStaysInBlock` | src/channel/file.cc:897-966 | a frame of at most a block is placed inside one block exactly when it can start in the current one or leaves room for the block header |
| `FileLayout.AppendKeeps` | src/channel/file.cc:897-966 | a stored frame makes a well-formed file one of the log with that message, whether it fits or crosses its block, whatever lies before it |
| `FileLayout.CrossesExactly` | src/channel/file.cc:922-965 | a frame of a log crosses its block exactly when it neither fitted the rest of the last block nor an empty one behind its header |
| `FileLayout.SpillReads` | src/channel/file.cc:818-830 | what a frame leaves in the block behind its own makes the search move back into the file exactly when these bytes alone read as such a size |
| `FileImage.FrameSeen` | src/channel/file.cc:986-1033 | from any position that leads to message i the reader sees its skip frame, its frame, an error if that crosses its block, or nothing exactly at the end |
| `FileImage.PostKeeps` | src/channel/file.cc:897-984 | the bytes of skip frame, block header and frame turn a file of the log into one of the log with the message added, also over what a crossing frame has left, and nothing below changes |
| `FileImage.LastPostDecides` | src/channel/file.cc:641-666 | once a file has a message and its start can be read, it opens after a post exactly when that post had a place |
| `FileImage.CrossingPostRefuses` | src/channel/file.cc:641-666 | two posts to a new file of block 4096 after which it opens no more, in any mode |
| `FileImage.LaterPostOpens` | src/channel/file.cc:641-666 | a third after which it does, and reading stops at the second |
| `FileImage.LongFirstPost` | src/channel/file.cc:641-666 | one post to such a file after which plain reads refuse it and a mapping reads it from the start in every mode |
| `FileImage.MiddleFails` | src/channel/file.cc:753-769 | a crossing frame in the block that the bisection looks at first makes the search for every seq fail |
| `FileImage.FailsOnlyAtCrossing` | src/channel/file.cc:753-769 | no bisection fails without a crossing frame in a block between its bounds |
| `FileImage.FaultlessExactly` | src/channel/file.cc:346-365 | from the start the file opens and can be read to its end exactly when no frame crosses its block and, with plain reads, no skip frame follows the meta frame |
| `FileLog.File.Create` | src/channel/file.cc:562-599 | a new file holds the meta frame and no message |
| `FileLog.File.ReadNextFrame` | src/channel/file.cc:986-996 | the frame found, and the position, as a function of bytes and position |
| `FileLog.File.ReadFrame` | src/channel/file.cc:986-1033 | the same on a file that holds a log |
| `FileLog.File.Process` | src/channel/file.cc:1086-1147 | delivers the next message, past skip frames and headers, or reports the end, or an error exactly at a frame that crosses its block |
| `FileLog.File.MakeRoom` | src/channel/file.cc:927-942 | closes the block with a skip frame where one fits and opens the next one with its header, for every frame of up to a block |
| `FileLog.File.WriteBlockHeader` | src/channel/file.cc:967-984 | the header bytes at the block start |
| `FileLog.File.WriteData` | src/channel/file.cc:897-966 | all bytes written and the new position |
| `FileLog.File.Post` | src/channel/file.cc:856-895 | refuses a seq that does not grow and a frame over the block size, changing nothing; else the log grows by the message and the meta frame stays |
| `FileLog.File.PostAll` | src/channel/file.cc:856-895 | any posts: the log grows by exactly the accepted ones |
| `FileLog.File.ShiftBlock` | src/channel/file.cc:608-628 | the position behind the first frame of a block |
| `FileLog.File.SeekStart` | src/channel/file.cc:714-721 | the position before the first message |
| `FileLog.File.BlockSeq` | src/channel/file.cc:805-834 | for every block of every log: its first message, or none, an error for one that crosses it, what a skip frame behind the meta frame is taken for, and what the rest of a crossing frame is taken for |
| `FileLog.File.ReadSeq` | src/channel/file.cc:836-854 | the seq at the handle, or an error for a crossing frame; on a skip frame an error with plain reads, in a mapping what the bytes around it make of it |
| `FileLog.File.Bisect` | src/channel/file.cc:753-769 | fails exactly when it looks at a block whose first frame crosses it; else ends with a block from which a scan finds the target, or at the target itself |
| `FileLog.File.ScanTo` | src/channel/file.cc:774-803 | the scan ends at the first message at or after the seq, or at the end |
| `FileLog.File.Seek` | src/channel/file.cc:723-803 | for every seq and every file with increasing seqs: ends at the frame a linear scan finds and reports none exactly when there is none, except exactly where a crossing frame at the end, at the start or in the bisection, or a skip frame behind the meta frame, stops it |
| `FileImage.TargetIs` | src/channel/file.cc:723-803 | what a linear scan finds: all earlier messages are smaller, the target is not |
| `FileLog.File.LastMessageBlock` | src/channel/file.cc:658-666 | the last block with a message, found from the end; an error exactly when the last frame crosses its block |
| `FileLog.File.ScanToEnd` | src/channel/file.cc:668-708 | reads on to the last message of the file |
| `FileLog.File.FileBounds` | src/channel/file.cc:641-712 | for every file: first and last seq and a position equivalent to the end, or exactly which frame stops it and how |
| `FileLog.File.Reopen` | src/channel/file.cc:429-447 | opens for append exactly when the bounds are found; recovers the last seq and a position that writes where the old handle would have, also behind earlier damage; a skip frame behind the meta frame makes it fail with nothing changed, or cut off every message |
| `FileLog.File.OpenForRead` | src/channel/file.cc:323-365 | for every file and mode: whether it opens, and the message that will be delivered first |
| `FileLog.File.ReadOn` | src/channel/file.cc:1086-1147 | reading on returns exactly the messages up to the first that crosses its block, with an error exactly if there is one |
| `FileImage.SkipAfterMetaExactly` | src/channel/file.cc:805-834 | there is such a skip frame exactly when the first message does not fit behind a meta frame that leaves 17 bytes or more |
| `FileLog.PostReopenPostRead` | src/channel/file.cc:429-447 | post, close, reopen, post, open and read, for any posts, either IO and any mode: reopening succeeds exactly when a reader would open the file; what is read is what survived it and what was accepted after it, up to the first crossing frame |
| `FileLog.PostRead` | src/channel/file.cc:323-365 | any posts, then opening and reading in any mode: whether it opens, where it starts and where it stops are functions of the posts; from the start all accepted messages are read, in order, exactly when the posts are faultless |
| `FileLog.Follow` | src/channel/file.cc:1086-1147 | a reader that was there before the posts, polling at any moments between them, gets every accepted message once, in order, up to the first that crosses its block |
| `LiveFile.StepKeeps` | src/channel/file.cc:214-236 | every byte stored by the writer and every load of the reader keeps the invariant: where a size marker or a tail byte can be seen, all that it stands for is there |
| `LiveFile.LiveReaderGetsAPrefix` | src/channel/file.cc:986-1147 | version 1, in every interleaving of the byte stores of any posts with the loads of a reader, through skip frames, headers and blocks: what is delivered is a prefix of what is posted, and there is no error |
| `LiveFile.LiveReaderCatchesUp` | src/channel/file.cc:1086-1147 | and once everything is stored so many loads deliver all of it |
| `MmapFrame.LoadKeeps` | src/channel/file.cc:1008-1058 | every load of the reader keeps the tail-marker invariant |
| `MmapFrame.AcceptedFrameIsComplete` | src/channel/file.cc:214-236 | with the size marker, in every interleaving of byte stores and loads an accepted frame has its final size and complete payload |
| `MmapFrame.VersionZeroTearsExactly` | src/channel/file.cc:1008-1033 | without it, for every size of a data frame: some frame and interleaving make a wrong size accepted exactly when two bytes of the size are not zero |
| `MmapFrame.OneByteSizeIsSafe` | src/channel/file.cc:1008-1058 | without it, in every interleaving: a data frame whose size has one nonzero byte is accepted only complete and never refused |
| `MmapFrame.VersionZeroSkipTears` | src/channel/file.cc:1008-1033 | without it, wherever a skip frame is written: an interleaving in which the reader takes it for a negative size other than -1 |
| `Processor.MarkMeansQuietAbove` | src/processor/deps.h:86-123 | a marked object and all its transitive dependents are Closed or Closing and not opening |
| `Processor.Processor.MarkSubtreeOpen` | src/processor/deps.h:116-123 | exactly the objects at or below lose their mark |
| `Processor.Processor.ReadyOpen` | src/processor/deps.h:130-135 | all direct dependencies are Active and none is decayed |
| `Processor.Processor.ReadyClose` | src/processor/deps.h:137-142 | open, not about to open or close, and all direct dependents marked |
| `Processor.Processor.MarkSubtreeClosed` | src/processor/deps.h:86-114 | keeps the invariants through the whole descent, marks or reopens a quiet object, closes a decayed one that nothing open depends on, and says so only if something below is ready to open |
| `Processor.Processor.Decay` | src/processor/processor.cc:35-48 | ends; exactly the unmarked objects at or above become decayed, and none of them is left that could be closed and is not |
| `Processor.Processor.OnState` | src/processor/deps.h:144-159 | the flags after a state report |
| `Processor.Processor.OpenDependents` | src/processor/processor.cc:702-708 | every dependent that is ready is being opened |
| `Processor.Processor.CloseDependencies` | src/processor/processor.cc:720-723 | no direct dependency is left that could be closed and is not |
| `Processor.Processor.OnClosed` | src/processor/processor.cc:712-725 | unless something at or below reopens, closing spreads up by decay and down to the direct dependencies |
| `Processor.Processor.Update` | src/processor/processor.cc:675-733 | every state report keeps the invariants and has the effect of its state |
| `Processor.Processor.ActivateObject` | src/processor/processor.cc:744-752 | opening flag, decay taken back, marks at and below removed, Activate sent |
| `Processor.Processor.DeactivateObject` | src/processor/processor.cc:754-764 | Deactivate sent once until the object reports Closing |
| `Processor.Processor.Reactivate` | src/processor/processor.cc:766-780 | opens when running, ready and not waiting; else changes nothing |
| `Processor.Processor.Start` | src/processor/processor.cc:735-742 | every object without dependencies is being opened |
| `Processor.Processor.CloseRequest` | src/processor/processor.cc:651-668 | a user's close: ignored for a closed object |
| `Processor.Processor.TimerOpen` | src/processor/processor.cc:884-890 | opens exactly when ready and running |
| `Processor.Processor.TimerClose` | src/processor/processor.cc:891-893 | the timer's close |
| `Processor.Processor.Shutdown` | src/processor/processor.cc:793-804 | everything decays and nothing is left that could be closed and is not |
| `Processor.Run` | src/processor/processor.cc:675-804 | any events in any order from initialisation keep the invariants; every Activate ever sent had all direct dependencies Active and not decayed |
| `Processor.CascadeClosesOnlyUnderQuiet` | src/processor/deps.h:86-159 | every Deactivate the cascade ever sent: at that moment all transitive dependents were Closed or Closing and not opening |
| `Processor.MarkExactlyWhenQuietAbove` | src/processor/deps.h:86-114 | between events a closed object is marked exactly when all its dependents are |
| `Depth.ObjectDepth` | src/processor/processor.cc:327-359 | ends on every graph; -1 comes with a walk into a missing object or a cycle, anything else is the longest chain |
| `Depth.DepthOf` | src/processor/processor.cc:327-359 | -1 exactly when a missing object or a cycle can be reached |
| `Depth.DepthExcludesBad` | src/processor/processor.cc:335-354 | an object with a depth has no cycle and no missing name below it |
| `Depth.DepthDecreases` | src/processor/processor.cc:345-354 | a dependency is strictly less deep |
| `Depth.ByDepth` | src/processor/processor.cc:403-408 | all names once, ordered by depth |
| `Depth.ByDepthIsInitOrder` | src/processor/processor.cc:403-408 | that order puts every object after its dependencies |
| `Depth.InitDepends` | src/processor/processor.cc:361-416 | fails exactly for a reachable cycle or missing name in either graph; else every object once, after its init dependencies, and the open depths rank the open graph |
| `Depth.BuildRdepends` | src/processor/processor.cc:431-446 | succeeds exactly without repeated names; the numbered graph has the same edges, their converse and no cycle, as the scheduler requires |
| `Chains.LinkSpawns` | src/processor/chains.cc:42-60 | fails exactly for an undefined chain or one spawned twice |
| `Chains.AddLevel` | src/processor/chains.cc:70-96 | one level's node, objects and what the next level waits for |
| `Chains.Init` | src/processor/chains.cc:42-105 | the generated configuration is exactly the specified one and holds every chain |
| `Chains.AcceptedNamesAreDistinct` | src/processor/chains.cc:70-96 | an acyclic result has no two levels of one name in a chain |
| `Chains.AcceptedIsDistinct` | src/processor/chains.cc:70-96 | so every acyclic result comes from distinct level names |
| `Chains.LevelsAreOrdered` | src/processor/chains.cc:64-105 | with distinct level names every object of a level transitively depends on every object of all earlier levels of its chain |
| `Chains.JoinWaitsForAll` | src/processor/chains.cc:77-82 | with distinct level names a joining level, and its objects, depend on every object of the joined chain |
| `Chains.SpawnedAfterSpawner` | src/processor/chains.cc:67-82 | with distinct level names every level and object of a spawned chain depends on the spawning level |
| `Chains.SpawnIsRecorded` | src/processor/chains.cc:42-52 | where a level spawns a chain, that level is the spawner |
| `Chains.DoubledLosesOrder` | src/processor/chains.cc:70-96 | with two levels of one name an object of the last need not depend on one of the first |
| `Stat.StepKeepsOwned` | src/tll/stat.h:312-359 | every step of writers and swapper keeps page ownership |
| `Stat.OwnedInBounds` | src/tll/stat.h:312-359 | page ownership gives the bounds that every step needs, so no run gets stuck on them |
| `Stat.StepKeepsInv` | src/stat.cc:70-83 | and the balance of every field, also between copy and reset |
| `Stat.NoPageHeldTwice` | src/tll/stat.h:312-359 | in every run no page is held by two parties, and the current page is in the lock or with exactly one writer |
| `Stat.NothingLost` | src/stat.cc:70-83 | in every run drained values and both pages combine to exactly the stored updates, for sum, min and max |
| `Stat.AppliedFromDefault` | src/tll/stat.h:187-196 | what the fields report is the combination of all values with the default |
| `Stat.ReportedExactlyUnless` | src/tll/stat.h:175-185 | that is the true sum, minimum or maximum unless all values of a double maximum are below DBL_MIN |
| `Stat.NegativeMaximumIsLost` | src/tll/stat.h:175-185 | a negative double reported as maximum is lost |
| `MemEvent.StepKeepsInv` | src/channel/mem.cc:199-247 | every access of producer and consumer keeps the wakeup invariant |
| `MemEvent.NoLostWakeup` | src/channel/mem.cc:199-247 | in every interleaving, from before the event is attached: an idle consumer with messages waiting is or will be woken; messages come out once, in order |
| `MemEvent.ClearNeverFindsZero` | src/tll/channel/event.h:45-59 | with calls only on a wakeup the strict clear never finds a zero counter |
| `MemEvent.CallAlone` | src/channel/mem.cc:223-247 | a call without a wakeup fails exactly when it takes the last message with the event not raised |
| `MemEvent.EmptyCallKeepsTheEventRaised` | src/channel/mem.cc:223-230 | a call that finds the ring empty leaves the event raised |
| `MemEvent.EmptyRingWithRaisedEvent` | src/tll/channel/event.h:45-59 | such a state follows every notification that is overtaken by a call |
| `MemEvent.OvertakenExactly` | src/tll/channel/event.h:45-59 | of all steps exactly the notification of a message already taken, with the consumer at rest, leaves the event raised over an empty ring |
| `MemEvent.RaisedOnlyByOvertaking` | src/channel/mem.cc:199-247 | in every run the event is raised over an empty ring, with the consumer at rest, only after such a notification |
| `MemEvent.OvertakenNotification` | src/channel/mem.cc:199-247 | and that situation is reached |
| `Framed.DecodeAppend` | src/channel/framed.cc:63-70 | decoding can be cut at any byte and continued with what was left |
| `Framed.TcpFrame.ProcessData` | src/channel/framed.cc:178-192 | the first buffered frame goes out and its bytes leave the buffer |
| `Framed.TcpFrame.Reserve` | src/channel/framed.cc:205-211 | moving and growing the buffer keeps the buffered bytes |
| `Framed.TcpFrame.OnData` | src/channel/framed.cc:194-220 | any chunk keeps delivered plus buffered equal to the decoding of all received, with Pending set exactly when a frame is complete |
| `Framed.TcpFrame.Process` | src/channel/framed.cc:222-234 | the same, delivering one message exactly when Pending was set |
| `Framed.DeliveredIsDecoding` | src/channel/framed.cc:178-234 | delivered plus decoding of the buffer equals the decoding of the stream, short of an empty frame |
| `Framed.StuckStays` | src/channel/framed.cc:63-70 | an empty frame stays first whatever is received after it |
| `Framed.PollStuck` | src/channel/framed.cc:222-234 | from an empty frame on every poll delivers another empty message |
| `Framed.EncodeDecodes` | src/channel/framed.cc:18-36 | a posted message decodes to itself exactly when its size, id and seq fit the header, or the bson document starts with its length |
| `Framed.StreamDecodes` | src/tll/channel/frame.h:84-99 | the stream of any sendable posts decodes to them with nothing left |
| `Framed.Drive` | src/channel/framed.cc:194-234 | any chunks and polls in any order keep the invariant |
| `Framed.Drain` | src/channel/framed.cc:222-234 | polling while Pending ends with all messages delivered |
| `Framed.Receive` | src/channel/framed.cc:194-234 | any chunks with any polls, then polls until Pending is off: the decoding of all of them |
| `Framed.SendAndReceive` | src/channel/framed.cc:178-234 | posts arrive as sent for every chunking and every schedule of polls |
| `Rate.UpdateTwice` | src/channel/rate.cc:147-173 | the second update of a post does nothing |
| `Rate.UpdateBounds` | src/tll/channel/rate.h:48-60 | an update credits no more than was earned, below the limit loses less than one ticket to truncation, and moves its time only when it credits a ticket |
| `Rate.Limiter.UpdateBuckets` | src/channel/rate.cc:216-222 | all buckets updated, and whether one is empty |
| `Rate.Limiter.Charge` | src/channel/rate.cc:147-173 | all buckets updated and charged their cost; the timer is armed with the longest delay among them |
| `Rate.Limiter.Post` | src/channel/rate.cc:208-231 | refused exactly when a bucket is empty and the post is not urgent; only a message that went out is charged |
| `Rate.Limiter.OnTimer` | src/channel/rate.cc:105-125 | all buckets updated; writers are told to go on unless there is a delay, the longest among the buckets |
| `Rate.WaitMeansEmpty` | src/channel/rate.cc:159-170 | up to one watermark per nanosecond there is a delay exactly when a bucket is empty |
| `Rate.EmptyWaitsExactly` | src/tll/channel/rate.h:62-71 | being empty and having a delay agree for all states of a bucket exactly up to that speed |
| `Rate.FastBucketDoesNotWait` | src/tll/channel/rate.h:62-71 | above it a bucket that has just run out has no delay |
| `Rate.DelaySuffices` | src/tll/channel/rate.h:62-68 | one nanosecond after the delay an update fills an empty bucket up to its watermark |
| `Rate.TicketsStayAbove` | src/tll/channel/rate.h:30-75 | in every non-urgent run tickets stay at or above one minus the largest cost |
| `Rate.UsedIsEarned` | src/tll/channel/rate.h:30-75 | over any stretch of a run what is used was there or was earned |
| `Rate.RateIsBounded` | src/channel/rate.cc:208-231 | in every window starting at an update less is used than max(limit, initial) plus speed times window plus one message |

## Left out

- Weak memory orders and fences: every atomic operation is a sequentially consistent step.
- LZ4 compression of the file log and the lz4 channels: a foreign library, with another minimum frame size.
- I/O errors of files, flock, temporary files and renames; sockets and the channels built on them.
- 32 bit wrap-around of ring sizes: rings are below 4 GiB; generation counters do not overflow.
- `ring_iter_*` of ring.c: the same iterator as the one modelled from cppring.h, without the subscriber around it.
- Block snapshots, rotation, init messages and delayed open in the stream server: the request feed is a reader of storage positioned by seq.
- The byte layout of the stream client's buffer: how many entries an insertion evicts, whether a message fits and whether the buffer is half free are free choices.
- User callbacks that close, post to or reopen the channel that is calling them.
- The end-of-data control message, autoclose, and a last seq that is not exact (`exact-last-seq=no`) in the file channel.
- The modes `block` and `last` of the stream client, the `seq-data` mode (`seq` with the next number), and its old protocol.
- What a search reads after it has moved back in the file, or what comes of that: FileImage calls it `Wild` and says only when it happens.
- In a mapping the store of a frame that crosses its block also runs past the mapped block, and a read past the end of the file faults where it is not in the last page; FileLog takes the bytes as a file with zeros behind it, and LiveFile leaves such posts out.
- The other private steps of `_seek` and `_file_bounds`: helpers of the members listed above.
- Processor liveness (that everything opens or closes in the end): it depends on channels and timers outside this code.
- Reopen timers of the processor: which objects must still wait is a parameter; `_close_workers`, worker threads and stages are not modelled.
- Generated names in Chains are a datatype, so clashes between a user's object and `chains/...`, or of objects with one name, are not modelled. Parsing of the configuration is not modelled.
- The `Last` method of statistics, overflow of integer sums, rounding and NaN in sums of doubles; lists of blocks and iterators.
- The event counter does not saturate, and a ring entry shorter than its frame (EMSGSIZE in `_process`) is not modelled.
- Datagram framing (`UdpFrame`), and message id and seq of frames that carry none.
- Rate limiting of the input direction, the master/child sharing of buckets, and who is notified; `double` rounding of the speed.
- Urgent posts are modelled in Rate.Limiter.Post and excluded from the bound, which they may exceed.
- TCP, UDP, serial and IPC channels, schemes, configuration, logger, Python bindings: not part of this model.
