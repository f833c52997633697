# Proofs about the wallet's durable log, acceptance tracker and their helpers

This project models the parts of the wallet that must survive a dead process, a
torn write or an out-of-order feed, and proves what they keep.

**The durable key-value log** (`Bytes`, `Crc32`, `KvKeys`, `KvFormat`, `KvImage`, `KvLog`,
`KvRuns`, `KvWords`, `KvTails`, `KvStore`). An append-only file of checksummed frames that replays to
records and tombstones. The file is a byte sequence; a write lands, fails before
or after its cut, stops after any byte, or leaves only zeros; a process may die at
any step. CRC-32 (section 8 of RFC 1952) is computed concretely. The record coding
is a parameter with a round-trip hypothesis (`KvFormat.Good`). `KvLog` says what
each operation does as a function of the log and the file, `KvRuns` proves what
whole runs keep, `KvWords` what frames and requests mean (the last word on each key,
said without folding), `KvTails` what is called torn and what a load makes of a failed
append, and `KvStore.Log` is the object whose methods update its fields
and its disk in place and are proved equal to those functions.

**The acceptance tracker** (`WatchLog`, `ChainBatch`, `Tracker`, `IndexRuns`,
`MessageWalk`, `TrackerLoop`, `LoopRuns`, `GuardRuns`, `TrackerMeans`, `CursorRuns`,
`LoopMeans`, `HoldRuns`, `FoldRuns`, `SerialRuns`, `TrackerStore`, `TrackerShell`). A per-txid state machine over a log whose every write may fail
(`Disk` is any function from a write's number to whether it lands), a reverse
index, one-shot event guards, a held cursor, a catch-up walk beside the live feed,
and a second feed that may never override the ordered one. `TrackerLoop.Step` is
the event loop as a step relation: one lock-held section, one delivery, one tick or
one call at a time, in any order. `LoopRuns` proves each step a sequence of the
state's own operations, so what every sequence of operations keeps holds of every
run. `GuardRuns` proves the one-shot guards exact and that each signal comes,
`TrackerMeans` what each operation does and tells in a consumer's terms, `CursorRuns` the
law of the held cursor, `LoopMeans` and `HoldRuns` what the loop does do (moves, walks
again, reads ahead, answers, heals), `FoldRuns` what a complete fold
means on disk, and `SerialRuns` that a walk beside the live feed folds as if before
it. `TrackerStore.TrackerState` and
`TrackerShell.AcceptanceTracker` are the objects with their in-place loops.

**The smaller cores.** `Durable` (the temp-file, fsync, rename, fsync write over a
file system that may lose what was not synced), `FillWalk` and `Hex` (the bounded
page walk, its cursors and floor, its hexadecimal), `SocketGate` (the send-first
gate), `Discovery` (the chunked balance scan), `CloseLane` (the fragment-safe
writers) and `Contacts` (the name cleaner).

RPC answers, clocks, disk outcomes and a hash map's iteration order are parameters
of the model, so the theorems hold for every value of them.

## What the proofs found

- A drop that fails to reach the disk leaves an accepted record that the index no
  longer lists (`WatchLog.DropExactWhen`), so a later removal of its block misses it;
  it hides no other txid (`LoopRuns.RunKeepsIndex`). It also clears the watch's
  one-shot guards: a stall, an elapse or a confirmation is signalled a second time if
  and only if a drop of that watch failed after the first and a later tick or score
  finds it due (`Tracker.EventsAreOneShot`, `Tracker.FailedDropStallsTwice`).
- A hold taken before any cursor was written is not kept for a walk to fold again: the
  next walk has nowhere to start, seeds the cursor at the sink and releases it at once
  (`CursorRuns.HoldWithoutCursorIsGivenUp`); otherwise only the pruning horizon, or all
  16 pages folded completely, ends a hold unpaid (`CursorRuns.HoldGivenUpOnlyWhen`).
- A watch and a message page do not always commute: they do exactly when the
  matched-acceptance memory can carry the page's word and did not already hold a
  clashing one (`MessageWalk.WatchAndPageCommuteExactlyWhen`).
- What a load finds beyond the acknowledged state is at most one operation, the last
  that reached the file (`KvRuns.Recovery`, `KvRuns.PendingReachedLast`). It need not
  be the last one asked for: a request refused early, and a re-reported record
  answered "nothing to write", leave an older refused replacement where it is
  (`KvRuns.AckedNoOpSettlesNothing`).
- A log's first append left blank by a power loss reads as a version 1 file: a load
  whose rewrite then fails as well serves the empty log read-only, although no data is
  at stake (`KvTails.LoadAfterAppend`).
- A removal of a key that has no record is acknowledged without a write, so a flag on
  such a key would outlive it; no request brings a log there, as each keeps flags on
  records only (`KvWords.RequestMeans`, `KvWords.RequestKeepsFlags`).
- A send told accepted from a read ahead of its fold can read displaced, when a removal
  folded meanwhile displaced the record (`TrackerMeans.ToldIsRead`).
- A durable write that answers success can be undone by a crash exactly when the
  directory's fsync was refused, and then to any value written since the last one
  granted, not only to the one before it (`Durable.Volume.AtomicWrite`,
  `Durable.CrashAfterWrites`).
- A renewal that shortens a claim wakes nobody, so a walk can sleep on at a free
  socket until the older deadline; the comment on `wait_turn` promises otherwise
  (`SocketGate.IdlesExactlyWhen`, `SocketGate.ShorteningRenewalIdles`).
- The address scan's index is 32 bits wide, so it names the highest funded address
  exactly when that address's position fits (`Discovery.WrapExactly`).
- A walk that stops at a "page wall" may in fact have read everything up to the
  ceiling, when the rest of its last page is dated past it (`FillWalk.FutureWall`).

## Model

| member | source | states |
|---|---|---|
| Crc32.UpdateInPieces | rust/chain/src/kvlog.rs:184-189 | A frame's checksum taken over its length and then its body is that of the two together. |
| Crc32.FourZeros | rust/chain/src/kvlog.rs:1515-1521 | The checksum of four zero bytes is not zero, so zeros cannot announce an empty frame. |
| KvKeys.SortedListingUnique | rust/chain/src/kvlog.rs:834-851 | A set of keys has one strictly ordered listing, so one state has one image. |
| KvFormat.BodyRoundTrip | rust/chain/src/kvlog.rs:170-182 | Decoding an encoded frame body gives that frame back, for all four operations. |
| KvFormat.SealedFrameReads | rust/chain/src/kvlog.rs:196-264 | A sealed frame reads back as its body whatever follows it, verified or not. |
| KvFormat.TornFrameDoesNotRead | rust/chain/src/kvlog.rs:247-264 | A frame cut anywhere short of its end is no frame. |
| KvFormat.ZerosAreNoFrame | rust/chain/src/kvlog.rs:254-264 | No run of zeros of any length holds a checksum-valid frame. |
| KvFormat.FrameIsLocal | rust/chain/src/kvlog.rs:254-264 | Reading a frame depends on that frame's own bytes and no others. |
| KvFormat.RunAppend | rust/chain/src/kvlog.rs:273-374 | Replaying past a cleanly replayed prefix continues from its state. |
| KvFormat.RunPrefix | rust/chain/src/kvlog.rs:273-374 | The bytes replay consumed replay cleanly on their own, to the same state. |
| KvFormat.RunFile | rust/chain/src/kvlog.rs:303-355 | The one-offset replay loop computes the recursive replay, and stops at the good end. |
| KvFormat.ReplayFile | rust/chain/src/kvlog.rs:273-374 | The whole replay method, header and tail classification included, equals the replay function, whose state is `KvWords.ReplayIsTheLastWord` and whose tail is `KvTails.VerdictExactly`. |
| KvFormat.TornHoldsNoFrame | rust/chain/src/kvlog.rs:377-421 | Whatever is called torn in a version 2 file holds no checksum-valid frame at any offset. |
| KvFormat.TornHoldsNoV1Frame | rust/chain/src/kvlog.rs:377-421 | Whatever is called torn in a version 1 file starts no decodable body at any offset. |
| KvFormat.TornAppendStopsReplay | rust/chain/src/kvlog.rs:273-374 | Every proper prefix of one appended frame stops replay exactly at the previous good end. |
| KvImage.FramesReplay | rust/chain/src/kvlog.rs:196-206 | Any list of frames the writer wrote replays whole, in order, to their fold. |
| KvImage.LiveLenIsImageLen | rust/chain/src/kvlog.rs:266-374 | The growth rule's live length is the length compaction would write. |
| KvImage.ImageReplays | rust/chain/src/kvlog.rs:834-851 | The image of any state replays cleanly to exactly that state and measures itself exactly. |
| KvImage.ReplayedImage | rust/chain/src/kvlog.rs:266-374 | For every version 2 file of canonical frames, the replayed state can be compacted and its live length is that image's length. |
| KvLog.BufferLands | rust/chain/src/kvlog.rs:660-729 | An append that lands leaves a clean file one frame further, a first header included. |
| KvLog.BufferTears | rust/chain/src/kvlog.rs:660-729 | Every proper prefix of an append leaves the file meaning what it meant. |
| KvLog.BlankTail | rust/chain/src/kvlog.rs:660-729 | Zeros left in place of an append leave the file meaning what it meant. |
| KvLog.CheckedMeansSame | rust/chain/src/kvlog.rs:872-901 | Compaction's check passes only for an image that replays to the very state in memory. |
| KvLog.CompactIsClean | rust/chain/src/kvlog.rs:857-906 | A compaction that answers success leaves a clean file meaning the state in memory, ending at the remembered end. |
| KvLog.CompactSucceedsExactlyWhen | rust/chain/src/kvlog.rs:857-906 | Compaction succeeds if and only if the log is not held, no other writer grew the file, every frame can be written and the disk agrees. |
| KvRuns.LoadServesMeaning | rust/chain/src/kvlog.rs:446-568 | A load serves exactly what the file means, whatever its own writes do, leaves a file that means the same, and establishes the log invariant. |
| KvRuns.AppendKeeps | rust/chain/src/kvlog.rs:660-729 | Every append, whatever its fate, keeps "the file up to the end replays to memory and anything past it is owed a cut". |
| KvRuns.RequestKeeps | rust/chain/src/kvlog.rs:734-796 | Every upsert, remove, tombstone and untombstone keeps the invariant; success is on disk, a refusal changes no memory. |
| KvRuns.StepKeeps | rust/chain/src/kvlog.rs:446-906 | Each step of a run (load, request, compaction, wipe, death) leaves a file that means exactly the acknowledged state with the one pending operation applied, and memory that is the acknowledged state. |
| KvRuns.Recovery | rust/chain/src/kvlog.rs:273-906 | After any run with any torn, blanked or failed writes and any deaths, the next load yields exactly the acknowledged state with the one pending operation, if any, applied whole; and the acknowledged state alone if and only if nothing is pending or it would change nothing. |
| KvRuns.PendingReachedLast | rust/chain/src/kvlog.rs:660-906 | What is pending is the last operation to have reached the file: it left its bytes whole and unacknowledged, and no step since touched or loaded the file. |
| KvRuns.AckedNoOpSettlesNothing | rust/chain/src/kvlog.rs:731-749 | Three concrete requests after which an acknowledged no-op leaves an older, refused replacement on disk. |
| KvRuns.UnverifiedIsReadOnly | rust/chain/src/kvlog.rs:446-590 | A load without a working checksum changes no byte and refuses every later write, rewrite and wipe. |
| KvRuns.LoadCopiesFirst | rust/chain/src/kvlog.rs:496-519 | A load changes a file with an unreadable tail only after copying that tail aside, and makes no other copy. |
| KvRuns.RepairKeepsFrames | rust/chain/src/kvlog.rs:377-519 | Whatever a load drops from a version 2 file was copied aside whole, or holds no checksum-valid frame at any offset. |
| KvRuns.LaterCutKeepsFrames | rust/chain/src/kvlog.rs:496-729 | When a load's rewrite failed, what the next append cuts away is nothing, or the tail that load classified: frame-free, or copied aside whole. |
| KvRuns.LoadSettles | rust/chain/src/kvlog.rs:521-566 | After a load whose writes succeed, a second load changes no byte, and the file is at most max(64 KiB, 2 x live). |
| KvRuns.OnlyTheGrownAreRewritten | rust/chain/src/kvlog.rs:165-168 | A load leaves a clean version 2 file alone, byte for byte, if and only if it is no longer than 64 KiB or than twice its image. |
| KvWords.ReplayIsTheLastWord | rust/chain/src/kvlog.rs:273-374 | Of any file, with no reference to how frames are folded: a key has the record of the last upsert filed under it that no later upsert or removal follows, is absent otherwise, and is flagged if and only if the last removal, flag or unflag naming it is a flag. |
| KvWords.FramesMean | rust/chain/src/kvlog.rs:196-374 | Frames the writer wrote replay to their last word on every key, and a removal is reported exactly when one is among them. |
| KvWords.RequestMeans | rust/chain/src/kvlog.rs:731-796 | What each request does: acknowledged, an upsert files its record, a removal leaves no record, a flag flags a record and an unflag unflags, each with the rest of its own key as it was; every other key is untouched; refused, nothing changes. |
| KvWords.RequestKeepsFlags | rust/chain/src/kvlog.rs:765-796 | Flags stand on records only, whatever is asked; in such a log an acknowledged removal leaves neither record nor flag. |
| KvWords.RunIsTheLastWord | rust/chain/src/kvlog.rs:273-906 | Over every run of requests, rewrites, wipes, deaths and loads with any failures, the next load holds of each key the last word among the frames at the start, the acknowledged requests since the last acknowledged wipe and what is pending. |
| KvWords.HoldsRemovedExactly | rust/chain/src/kvlog.rs:578-580 | A log says removed bytes are still in its file exactly when its file holds a removal frame, over every run. |
| KvTails.VerdictExactly | rust/chain/src/kvlog.rs:377-421 | A version 2 tail is unreadable if and only if a checksum-valid frame starts somewhere in it, or it is not blank and reaches past the one frame it announces; otherwise it is torn. |
| KvTails.OneAppendIsTorn | rust/chain/src/kvlog.rs:401-419 | However much of one append got down, and whatever became of its bytes past the length it announces, it is called torn exactly unless a frame hides in it. |
| KvTails.HeldExactly | rust/chain/src/kvlog.rs:446-568 | A verified load serves the log read-only exactly when its unreadable tail could not be copied aside, or it is of version 1 and could not be rewritten. |
| KvTails.LoadAfterAppend | rust/chain/src/kvlog.rs:446-729 | However an append that reached the file fared, unless a frame hides in the part that got down, the next load copies nothing aside and serves the log writable, whatever its own writes do; except that a first append left blank reads as version 1 and is read-only when the rewrite fails too. Where a frame hides, that part is copied aside whole or the log is read-only. |
| KvTails.AckedReopens | rust/chain/src/kvlog.rs:660-906 | After every write, rewrite and wipe that succeeds, the open log is, field by field, the one a load of its file as it now is would start from, with nothing owed. |
| KvTails.LoadReopens | rust/chain/src/kvlog.rs:446-568 | So is every log a verified load opens for writing over a file it leaves clean. |
| KvTails.ChangedBehindIsRefused | rust/chain/src/kvlog.rs:660-690 | When a file is not as long as such a log left it, no append touches it and none is acknowledged; when it grew, no rewrite either. |
| KvStore.PushEach | rust/chain/src/kvlog.rs:834-851 | The image loop writes every frame, or nothing when one cannot be written. |
| KvStore.Log.Append | rust/chain/src/kvlog.rs:660-729 | The in-place append equals the append function on the old log and the old bytes. |
| KvStore.Log.Upsert | rust/chain/src/kvlog.rs:731-749 | The in-place upsert equals the request function, the unchanged-record shortcut included. |
| KvStore.Log.Remove | rust/chain/src/kvlog.rs:765-773 | The in-place removal equals the request function: append first, then memory. |
| KvStore.Log.Tombstone | rust/chain/src/kvlog.rs:778-785 | The in-place tombstone equals the request function. |
| KvStore.Log.Untombstone | rust/chain/src/kvlog.rs:789-796 | The in-place untombstone equals the request function, which `KvWords.RequestMeans` says: the key is unflagged and nothing else changes. |
| KvStore.Log.Wipe | rust/chain/src/kvlog.rs:823-832 | The file is emptied before memory is, or neither changes. |
| KvStore.Log.Check | rust/chain/src/kvlog.rs:872-894 | The read-only check answers whether an image replays to the state in memory. |
| KvStore.Log.Compact | rust/chain/src/kvlog.rs:857-906 | The in-place compaction equals the compaction function, every refusal included. |
| KvStore.Log.Repair | rust/chain/src/kvlog.rs:521-566 | The rewriting half of a load equals its function. |
| KvStore.Load | rust/chain/src/kvlog.rs:446-568 | Opening a log on a disk equals the load function, copies aside and rewrites included; when it serves read-only is `KvTails.HeldExactly`. |
| WatchLog.AcceptOneExact | rust/chain/src/acceptance.rs:577-638 | One acceptance, its write landing or not, keeps the index exact. |
| WatchLog.RemoveBlockSteps | rust/chain/src/acceptance.rs:646-683 | Removing a block keeps the index exact, displaces only txids it had accepted, and all of them unless a write failed. |
| WatchLog.RemoveBlockOf | rust/chain/src/acceptance.rs:646-683 | The same for one txid, in an index that is sound and lists that txid, whatever it misses of others. |
| WatchLog.FinalizeOneExact | rust/chain/src/acceptance.rs:736-764 | A finalization, its write landing or not, keeps the index exact. |
| WatchLog.DropExactWhen | rust/chain/src/acceptance.rs:540-559 | A drop keeps the index exact if and only if its write lands or there was no acceptance to unlist; it is always sound. |
| WatchLog.StaleRemovalDisplacesNothing | rust/chain/src/acceptance.rs:646-683 | Removing any block other than the one a txid is accepted by leaves that txid alone. |
| WatchLog.RemovedValid | rust/chain/src/acceptance.rs:1094-1103 | Noting a removed block keeps queue and set in agreement and within capacity, with that block held. |
| WatchLog.AddedAllValid | rust/chain/src/acceptance.rs:1105-1109 | Noting added blocks takes exactly those out of the off-chain set and keeps it in agreement. |
| WatchLog.AnyPatternOfFailures | rust/chain/src/acceptance.rs:577-638 | Records written and removed land or fail independently: over any changes that are due, every pattern of outcomes is some disk's. |
| ChainBatch.FoldGivesTheChainsWord | rust/chain/src/acceptance.rs:1441-1554 | A fold with any failures leaves a txid as it was, as the removals leave it, or accepted by a block of the batch that names it; a complete one gives every watched txid the chain's word: its last accepting block, else Displaced if its block was removed, else unchanged. |
| ChainBatch.NothingFailsIsComplete | rust/chain/src/acceptance.rs:1441-1554 | With every write landing and every block read, a fold answers complete. |
| ChainBatch.RefoldHeals | rust/chain/src/acceptance.rs:1441-1554 | Folding a batch again after any failures gives every watched txid what one fold that never failed would have. |
| ChainBatch.RefoldIsIdempotent | rust/chain/src/acceptance.rs:1441-1554 | A further fold changes no status once complete; and whatever fails in it, none of a txid the batch names by one block it does not also remove, or not at all. |
| Tracker.NoDepthIsClaimedWhileHeld | rust/chain/src/acceptance.rs:691-731 | While the cursor is held or a walk runs, a sink score finalizes nothing, emits nothing and lets no unfinalized record read Confirmed. |
| Tracker.TickSignalsExactlyTheDue | rust/chain/src/acceptance.rs:786-835 | A tick emits exactly the stalls and elapses due and not yet signalled, and then none of them is due again. |
| Tracker.EventsAreOneShot | rust/chain/src/acceptance.rs:577-835 | A live watch stalls once, elapses once a displacement and confirms once between displacements, unless, and only unless, a drop of it failed after one of these was signalled and a later tick or score finds it due. |
| Tracker.HeardTwiceExactlyWhen | rust/chain/src/acceptance.rs:577-835 | Whatever the guards hold, one operation signals something twice if and only if it is a tick or a score that finds due what was signalled. |
| Tracker.DropReopensExactly | rust/chain/src/acceptance.rs:540-559 | After a drop, a stall, an elapse or a crossing is due if and only if the drop failed and its time or depth has come, signalled before or not. |
| Tracker.FailedDropStallsTwice | rust/chain/src/acceptance.rs:540-559 | A concrete run in which a failed drop makes one send stall twice. |
| GuardRuns.GuardsStayExact | rust/chain/src/acceptance.rs:577-835 | Over every sequence of operations with any write failing but a drop of this txid, its stall, elapse and confirmation guards stand exactly for what was signalled of the window now open: an acceptance or displacement clears what it starts over. |
| GuardRuns.SignalsComeExactly | rust/chain/src/acceptance.rs:786-835 | A tick signals a stall or an elapse exactly when no walk is on, its time has come and it was not signalled of this window; earlier displacements do not silence it. |
| GuardRuns.ConfirmationComesExactly | rust/chain/src/acceptance.rs:691-731 | A score signals a confirmation exactly when the acceptance is 100 below it, nothing is owed and none was signalled since the acceptance, at that depth. |
| GuardRuns.RunSignalsComeExactly | rust/chain/src/acceptance.rs:577-835 | The same of ticks after every run of the loop, with any failure but a drop of this txid. |
| TrackerMeans.ScoreDoesExactly | rust/chain/src/acceptance.rs:691-782 | With writes landing, a score drops what is past the horizon and finalizes a record if and only if it was accepted at least 2,000 below the score and depth may be claimed, its block, score and time carried over; every other record is as it was. |
| TrackerMeans.RunFinalizesOnlyByScore | rust/chain/src/acceptance.rs:691-764 | Over every run of the loop with any failures, a record turns final only by a score at least 2,000 above its own, with the cursor not held and no walk on. |
| TrackerMeans.AcceptanceTellsExactly | rust/chain/src/acceptance.rs:577-638 | A txid is told accepted if and only if the block newly accepts its record, which then holds the block's score and time; every other record is as it was. |
| TrackerMeans.RemovalTellsExactly | rust/chain/src/acceptance.rs:646-683 | A txid told displaced was accepted by one of the removed blocks and is now displaced from that very block; every other record is as it was. |
| TrackerMeans.OldestIs | rust/chain/src/acceptance.rs:410-424 | The watch evicted is the oldest, the first in iteration order among those as old. |
| TrackerMeans.RegistersExactly | rust/chain/src/acceptance.rs:406-434 | With writes landing, a new watch is Submitted from now; no one leaves below the cap, and at the cap the oldest alone does. |
| TrackerMeans.CapOverRuns | rust/chain/src/acceptance.rs:406-434 | Over every sequence of operations with any failures there are never more than 512 watches. |
| TrackerMeans.ToldIsRead | rust/chain/src/acceptance.rs:839-888 | Whoever is told something of a watch and reads it next reads just that: accepted, confirmed at the depth told, displaced, or stalled for the time told; only an acceptance read ahead of a displacement folded meanwhile reads displaced. |
| TrackerMeans.StallReadIsTold | rust/chain/src/acceptance.rs:786-888 | A watch reads stalled, for so long, exactly when a tick then, with no walk on and the stall not told before, would tell just that, unless its acceptance is already read ahead. |
| TrackerMeans.DepthReadIsTold | rust/chain/src/acceptance.rs:691-888 | An acceptance reads confirmed, at such a depth, exactly when the score now held, not told before, would tell just that. |
| TrackerMeans.AheadReadsAsFolded | rust/chain/src/acceptance.rs:839-888 | Read ahead during a walk, a send reads as its fold will leave it, depth and time included. |
| TrackerMeans.LandingNeverFails | rust/chain/src/acceptance.rs:406-731 | Only a refused write is answered as a failure, by every operation that answers for its writes. |
| IndexRuns.LoadedIndexExact | rust/chain/src/acceptance.rs:335-376 | The index a load builds is exact, whatever order the records come in. |
| IndexRuns.ApplyIndexed | rust/chain/src/acceptance.rs:406-764 | Each operation of the tracker keeps the index sound, and keeps listing each txid no drop of which failed. |
| IndexRuns.IndexOverRuns | rust/chain/src/acceptance.rs:335-764 | After every sequence of operations with any writes failing, a txid is listed under a block, once and in no empty list, only if accepted by it, and always if so unless a drop of that txid failed. |
| IndexRuns.OffChainOverRuns | rust/chain/src/acceptance.rs:1088-1114 | After every sequence of operations the off-chain queue and set agree and stay within capacity. |
| LoopRuns.StepIsOps | rust/chain/src/acceptance.rs:1990-2110 | Each step of the event loop is a sequence of the state's operations: the same new state, and the same events about watches. |
| LoopRuns.RunKeepsIndex | rust/chain/src/acceptance.rs:1990-2110 | The index over every run of the loop: sound, and listing each accepted txid no drop of which failed. |
| LoopRuns.RunKeepsIndexExact | rust/chain/src/acceptance.rs:1990-2110 | An exact index stays exact over every run of the loop in which no drop fails. |
| LoopRuns.RunKeepsOffChain | rust/chain/src/acceptance.rs:1990-2110 | The off-chain queue and set over every run of the loop. |
| LoopRuns.RunIsOneShot | rust/chain/src/acceptance.rs:1990-2110 | One-shot events over every run of the loop, with the exact condition for a second signal, heard in what the run emits. |
| MessageWalk.WalkNeverOverrides | rust/chain/src/acceptance.rs:453-486 | Over every sequence of message pages with any writes failing, no record is displaced, no acceptance moved or taken back, a Send only filled in, nothing accepted onto an off-chain block and nothing final touched. |
| MessageWalk.FoldPageKeepsMemory | rust/chain/src/acceptance.rs:1028-1062 | A page keeps the memory's queue and map in step and within capacity. |
| MessageWalk.RemovalDisplacesMemory | rust/chain/src/acceptance.rs:1064-1076 | After a page that does not name a txid the memory still carries: remembered as accepted by a block the page removes, it is remembered displaced from then and a later message watch starts displaced; any other word stays. |
| MessageWalk.WatchAndPageCommuteExactlyWhen | rust/chain/src/acceptance.rs:1186-1222 | For a page naming a txid once on a block still on chain, watching before or after it makes the same accepted record if and only if the memory carries the page's word and held no clash. |
| MessageWalk.SurvivesAnOrdinaryPage | rust/chain/src/acceptance.rs:1028-1062 | A page naming no more txids than the memory holds never pushes out a txid it was the first to name. |
| MessageWalk.KnownSurvivesWithRoom | rust/chain/src/acceptance.rs:1028-1062 | A txid already remembered survives a page with no more names than there is room behind its place in the queue. |
| MessageWalk.NoteAnswers | rust/chain/src/acceptance.rs:1235-1285 | A sender lookup either answers at once or queues itself once. |
| MessageWalk.SenderAnsweredOnce | rust/chain/src/acceptance.rs:1235-1305 | Wherever a lookup's section lands, before a page, after it, or after its first section and any number of its per-block takes, exactly one SenderResolvable names it and it is not left queued. |
| CursorRuns.CursorSafety | rust/chain/src/acceptance.rs:1714-1945 | In every run of the loop each walk begins at the persisted cursor, each page is asked from where the one before it ended, every move, give-up and release is lawful, the cursor is held exactly while an incomplete fold is owed, and the file holds the last lawful move. |
| CursorRuns.IncompleteFoldIsCoveredAgain | rust/chain/src/acceptance.rs:1714-1945 | After an incomplete fold, live or page, the next move or release of the cursor is a re-seed by a walk that gave up, or comes from a walk begun after it at the very cursor the file held before it, whose complete pages cover the chain from there to where the cursor moves. |
| CursorRuns.PageMovesCover | rust/chain/src/acceptance.rs:1859-1945 | A page moves the cursor only to the end of an unbroken chain of complete pages from the cursor its walk began at. |
| CursorRuns.CursorMovesOnlyPastCompleteFolds | rust/chain/src/acceptance.rs:1714-1945 | After any incomplete fold a live batch moves the cursor only once a release came between, and a page only in a walk begun after it that covered the chain. |
| CursorRuns.HoldGivenUpOnlyWhen | rust/chain/src/acceptance.rs:1759-1945 | A hold is given up only if there is no cursor to walk from, an unreleased incomplete fold is as old as the pruning horizon, or a walk begun after it folded all 16 pages it may ask for completely. |
| CursorRuns.HoldWithoutCursorIsGivenUp | rust/chain/src/acceptance.rs:1859-1866 | With no cursor written yet, the walk a hold waits for seeds the cursor at the sink and releases the hold at once, folding nothing. |
| CursorRuns.ConfirmedIsReadExactlyWhen | rust/chain/src/acceptance.rs:839-888 | In every run a watch reads Confirmed if and only if its record is final, or accepted at depth with every fold complete or released, no walk running and nothing held back left to fold. |
| CursorRuns.NothingIsClaimedWhileOwed | rust/chain/src/acceptance.rs:691-731 | While the cursor is held, a walk runs or held-back feeds fold, no step emits Confirmed or finalizes, and nothing unfinalized reads Confirmed. |
| CursorRuns.PageKeeps | rust/chain/src/acceptance.rs:1859-1945 | The end of a catch-up page moves, releases, holds or gives up the cursor lawfully, asked from where the ledger says. |
| CursorRuns.LiveKeeps | rust/chain/src/acceptance.rs:1714-1729 | The end of a live fold moves or holds the cursor lawfully. |
| LoopMeans.LiveMovesExactlyWhen | rust/chain/src/acceptance.rs:1714-1729 | A live batch moves the cursor if and only if it folded completely, nothing is owed, it added a block, its write lands, and it carried an accepting block, made up for a failed forced write, or the last write lies three seconds back. |
| LoopMeans.FailedForceIsMadeUp | rust/chain/src/acceptance.rs:1410-1428 | A forced cursor write that fails is made with the next complete batch, however soon it comes. |
| LoopMeans.WritesKeepApart | rust/chain/src/acceptance.rs:1410-1428 | Unforced cursor writes keep three seconds apart, a write that failed counted: the next complete batch moves the cursor if and only if the clock has gone on by three seconds. |
| LoopMeans.AcceptedMeansHeldAt | rust/chain/src/acceptance.rs:1441-1554 | A fold ends asking for a forced cursor write exactly when some record is accepted by a block the batch added, whether this batch recorded it or an earlier one did. |
| LoopMeans.PageThenExactly | rust/chain/src/acceptance.rs:1859-1945 | What follows a page: another is asked for exactly if it added at least 100 blocks and was not the 16th; a shorter one ends the walk, with nothing held exactly when every page folded completely; after a full 16th the hold is kept exactly while it is younger than the pruning horizon, else the walk gives up and seeds. |
| LoopMeans.ReconnectIsWalked | rust/chain/src/acceptance.rs:1990-2110 | Through every run from a reconnect on, a walk has begun since or one is still to begin. |
| LoopMeans.ConnectOwesAWalk | rust/chain/src/acceptance.rs:1990-2110 | Taking up a reconnect leaves a walk to begin, now or when the one under way is drained. |
| LoopMeans.DrainedWalksAgain | rust/chain/src/acceptance.rs:2023-2062 | When what a walk held back is folded, a reconnect that came meanwhile begins its walk at once. |
| LoopMeans.SendIsReadAhead | rust/chain/src/acceptance.rs:1650-1690 | A live batch that names a waiting send during a walk: once its blocks are read the send is told accepted and reads accepted, and the batch is held back for its turn. |
| LoopMeans.DueAheadExactly | rust/chain/src/acceptance.rs:1650-1670 | What is read ahead of a batch is each naming of a send still waiting for its first acceptance, and nothing else. |
| LoopMeans.AheadOnlyDuringWalks | rust/chain/src/acceptance.rs:2023-2062 | Over every run, with no walk on and nothing held back left to fold, nothing is read ahead: each record reads as it is on disk. |
| LoopMeans.StandInExactly | rust/chain/src/acceptance.rs:1586-1637 | A block the node cannot serve is given the score known, without asking; with none known the sink's, known from then on; and is left unread when the node does not tell it. |
| LoopMeans.StandInIsShallow | rust/chain/src/acceptance.rs:1586-1637 | A block the node cannot serve is given the sink's own score and no time: what it accepts reads at depth 0 then, and it answers no sender lookup. |
| LoopMeans.BatchAnswersLookups | rust/chain/src/acceptance.rs:1441-1554 | Over the sections a fold has left, its blocks served, each queued lookup a block of the batch accepts is answered exactly once and leaves the queue; any other stays, unanswered. |
| LoopMeans.QueueOverRuns | rust/chain/src/acceptance.rs:1235-1305 | Over every run the queue of sender lookups holds each once and stays within its bound. |
| HoldRuns.HeldCursorHeals | rust/chain/src/acceptance.rs:1859-2110 | From every reachable state with the cursor held and the loop idle, a due tick begins a walk, and when a page reaching the tip is served and writes land, the hold is released within a stated number of steps, the cursor at that page's last block. |
| FoldRuns.SectionStaysOnCourse | rust/chain/src/acceptance.rs:1441-1637 | One section, whatever the node answers and whatever writes fail: if the fold is still complete, each watched txid is headed for the chain's word. |
| FoldRuns.CompleteMeansDurable | rust/chain/src/acceptance.rs:1441-1637 | For any answers, failing writes and interleaving with other calls: from the step that takes up a batch, a fold that ends complete, or whose last step moves or releases the cursor, has put on disk exactly the chain's word of each txid watched all along whose drop did not fail. |
| FoldRuns.LostFactHoldsTheCursor | rust/chain/src/acceptance.rs:1441-1745 | If a write fails or a watched acceptance's block cannot be read, then however the run goes on, the step that ends the fold notes it incomplete, moves and releases nothing and leaves the cursor held. |
| SerialRuns.SectionConverges | rust/chain/src/acceptance.rs:1441-1637 | Blocks served, stood in for by the sink's score or unreadable, so long as each reads alike each time: a lock-held section leaves the fold's end as it was, failed writes included. |
| SerialRuns.SerialRun | rust/chain/src/acceptance.rs:1990-2110 | Every prefix of every interleaving is on its way to the serial outcome. |
| SerialRuns.WalkThenFeeds | rust/chain/src/acceptance.rs:2023-2062 | For every interleaving of a walk with live deliveries, the log after the drain equals folding all the walk's pages and then the held-back feeds in arrival order. |
| TrackerStore.TrackerState.constructor | rust/chain/src/acceptance.rs:335-376 | Loading rebuilds an exact index from the log's records, with nothing signalled. |
| TrackerStore.TrackerState.AcceptWatched | rust/chain/src/acceptance.rs:583-637 | One txid of an acceptance, in place: the write first, then index and both window guards cleared, as `GuardRuns.GuardsStayExact` needs. |
| TrackerStore.TrackerState.OnAccepted | rust/chain/src/acceptance.rs:577-638 | The in-place acceptance loop equals the fold function, its events and its failure included; what that does and tells is `TrackerMeans.AcceptanceTellsExactly`. |
| TrackerStore.TrackerState.OnRemoved | rust/chain/src/acceptance.rs:646-683 | The in-place removal loops equal the fold function, txids whose write failed kept listed. |
| TrackerStore.TrackerState.NoteAdded | rust/chain/src/acceptance.rs:437-441 | The in-place note of added blocks equals its function. |
| TrackerStore.TrackerState.DropWatch | rust/chain/src/acceptance.rs:540-559 | The in-place drop, in the code's own order, equals its function. |
| TrackerStore.TrackerState.FindOldest | rust/chain/src/acceptance.rs:410-424 | The eviction scan finds the first of the oldest watches in iteration order. |
| TrackerStore.TrackerState.Watch | rust/chain/src/acceptance.rs:406-434 | The in-place registration, eviction included, equals its function. |
| TrackerStore.TrackerState.WatchRemembered | rust/chain/src/acceptance.rs:492-534 | The in-place registration of a remembered txid equals its function. |
| TrackerStore.TrackerState.WalkAccepted | rust/chain/src/acceptance.rs:453-486 | The in-place word of the message walk equals its function. |
| TrackerStore.TrackerState.FinalizeWatch | rust/chain/src/acceptance.rs:736-764 | The in-place finalization equals its function. |
| TrackerStore.TrackerState.PruneBeyondHorizon | rust/chain/src/acceptance.rs:768-782 | The in-place pruning drops the expired in order up to the first refused write. |
| TrackerStore.TrackerState.Cross | rust/chain/src/acceptance.rs:691-731 | The scan finds exactly the first crossings of the confirmed depth. |
| TrackerStore.TrackerState.SinkBlue | rust/chain/src/acceptance.rs:691-731 | The in-place sink score equals its function: the crossings of `GuardRuns.ConfirmationComesExactly` and the finalizations and drops of `TrackerMeans.ScoreDoesExactly`. |
| TrackerStore.TrackerState.GatherDue | rust/chain/src/acceptance.rs:786-835 | The scan gathers exactly the stalls and elapses due. |
| TrackerStore.TrackerState.Tick | rust/chain/src/acceptance.rs:786-835 | The in-place tick equals its function and guards what it signalled. |
| TrackerShell.AcceptanceTracker.RememberOne | rust/chain/src/acceptance.rs:1040-1062 | The in-place memory insert, pushing out the oldest at capacity, equals its function. |
| TrackerShell.AcceptanceTracker.TakeResolvable | rust/chain/src/acceptance.rs:1289-1305 | The in-place taking of resolvable lookups equals its function. |
| TrackerShell.AcceptanceTracker.NoteSenderInterest | rust/chain/src/acceptance.rs:1235-1285 | The in-place lookup equals its function and broadcasts its answer. |
| TrackerShell.AcceptanceTracker.Watch | rust/chain/src/acceptance.rs:1186-1222 | The in-place watch, with the memory consulted, equals its function. |
| TrackerShell.AcceptanceTracker.FoldPageSection | rust/chain/src/acceptance.rs:1782-1842 | The page's first section, log and memory block by block, equals its function and gathers the lookups of blocks still on chain. |
| TrackerShell.AcceptanceTracker.FoldWalk | rust/chain/src/acceptance.rs:1782-1847 | The whole in-place page fold equals its function and leaves the cursor alone. |
| TrackerShell.AcceptanceTracker.WriteCursor | rust/chain/src/acceptance.rs:1410-1428 | The in-place cursor write, throttle and failure included, equals its function. |
| TrackerShell.AcceptanceTracker.FreezeCursor | rust/chain/src/acceptance.rs:1731-1745 | The in-place hold equals the loop's. |
| TrackerShell.AcceptanceTracker.ReleaseCursor | rust/chain/src/acceptance.rs:1748-1757 | The in-place release equals the loop's. |
| Durable.Volume.AtomicWrite | rust/chain/src/durable.rs:30-49 | A crash at any state of the write leaves what one before it could have, or exactly the new bytes; an error leaves the target as it was; after success a crash leaves the new bytes or, exactly when the directory's fsync was refused, what it could have left before. |
| Durable.CrashAfterWrites | rust/chain/src/durable.rs:30-49 | Over any sequence of writes with any outcomes, a crash can leave exactly the values written since the last granted directory fsync and the value the run was on then. |
| Durable.MayHoldExactly | rust/chain/src/durable.rs:42-47 | What a crash can leave of a target is exactly what it was last synced as, or any one file renamed over it since. |
| Durable.RenameAdds | rust/chain/src/durable.rs:42 | The rename adds one value to what a crash can leave, the new synced bytes, and takes none away. |
| Durable.SyncedIsFinal | rust/chain/src/durable.rs:44-47 | Once the directory is synced, the new bytes are all a crash can leave. |
| FillWalk.FoldRows | rust/chain/src/history_fill.rs:301-312 | The row loop gathers a page as its function does and reports progress exactly when a row was new. |
| FillWalk.WalkPages | rust/chain/src/history_fill.rs:258-344 | The page loop equals the walk function, which `EndsExactly` says without it: at most 40 fetches, distinct ids, the cursor never past the ceiling, no error on a complete walk. |
| FillWalk.WalkIsHonest | rust/chain/src/history_fill.rs:258-344 | Whatever a server answers, a walk fetches at most 40 pages, each past the first paid for by a new row, and no future row is taken or moves the cursor. |
| FillWalk.EndsExactly | rust/chain/src/history_fill.rs:258-344 | A walk stops at its first page that is refused, short, or full with no row that is new and not from the future, or when 40 pages were asked for; which of these it was decides the whole answer, and the short page alone is complete. |
| FillWalk.AnswerTells | rust/chain/src/history_fill.rs:258-344 | Read back: an incomplete answer without an error used the whole budget; a failed fetch carries the server's refusal at the walk's cursor; a wall was a full page on which every row is past the ceiling or gathered; a complete walk ended on a short page. |
| FillWalk.CompleteExactly | rust/chain/src/history_fill.rs:318-327 | Whatever the server, a walk is complete if and only if some page it reaches within the budget is short. |
| FillWalk.TableCompletesExactly | rust/chain/src/history_fill.rs:318-327 | Against a fixed table that is never refused, a walk is complete if and only if at some page it reaches within the budget fewer than 50 of the table's rows are left from its cursor on. |
| FillWalk.ShortTableCompletes | rust/chain/src/history_fill.rs:318-327 | Fewer than 50 rows from the start on: one page, complete, no error. |
| FillWalk.GathersExactly | rust/chain/src/history_fill.rs:301-317 | A page counts as progress if and only if it has a row that is not past the ceiling and whose id is new. |
| FillWalk.WalkCovers | rust/chain/src/history_fill.rs:258-344 | Against a fixed table, every exit holds every row from the start up to the cursor; a complete walk misses nothing up to the ceiling. |
| FillWalk.WallMeansCluster | rust/chain/src/history_fill.rs:328-341 | A walk stops at a wall only where 50 rows share the cursor's block time, or when nothing up to the ceiling is missing. |
| FillWalk.FutureWall | rust/chain/src/history_fill.rs:328-341 | A table whose rows from the start on fill a page past the ceiling stops the walk at a wall, reported incomplete, with nothing missing. |
| FillWalk.FillCursors.StartAt | rust/chain/src/history_fill.rs:556-558 | A lane starts at its own cursor or at the floor, whichever is later. |
| FillWalk.FillCursors.RaiseFloor | rust/chain/src/history_fill.rs:564-567 | The floor only rises, and no lane's start is lowered or left below the erase. |
| FillWalk.ResumingLosesNothing | rust/chain/src/history_fill.rs:258-567 | Over every sequence of walks and erases, every row from where a lane owes up to where it next starts is kept, and nothing kept lies below the floor. |
| FillWalk.ResumeFrom | rust/bridge/src/api/transport.rs:2733-2738 | The resume point is past no row held back, and is the walk's cursor when none was. |
| FillWalk.CompleteSettles | rust/chain/src/history_fill.rs:318-327 | A complete walk with nothing held back settles its lane up to the ceiling. |
| Hex.EncodeHex | rust/chain/src/history_fill.rs:596-604 | The encoding loop spells each byte in two lower-case digits. |
| Hex.DecodeHex | rust/chain/src/history_fill.rs:574-592 | The decoding loop equals the decoder, early refusals included. |
| Hex.DecodeOfEncode | rust/chain/src/history_fill.rs:574-604 | Decoding an encoding gives the bytes back. |
| Hex.DecodesExactlyHex | rust/chain/src/history_fill.rs:574-592 | A text decodes if and only if it has even length and only hex digits of either case. |
| Hex.EncodeOfDecode | rust/chain/src/history_fill.rs:574-604 | Encoding what a text decodes to gives the text back in lower case. |
| SocketGate.ClaimedExactly | rust/chain/src/foreground.rs:48-54 | The pruned list answers as the whole history does: held exactly when some id's latest claim or renewal, not released since, still runs, and until the greatest such deadline. |
| SocketGate.RenewRefines | rust/chain/src/foreground.rs:73-80 | Renewing any id, live, run out or never issued, keeps the list a refinement of the history. |
| SocketGate.ReleaseRefines | rust/chain/src/foreground.rs:83-90 | Releasing any id keeps the list a refinement of the history. |
| SocketGate.StrayRenewalLingers | rust/chain/src/foreground.rs:63-80 | A renewal of an id nobody issued is kept: once that id is issued, the list holds it twice and answers "claimed" exactly when the history does or the stray renewal still runs. |
| SocketGate.Foreground.Until | rust/chain/src/foreground.rs:50-53 | Pruning in place gives the latest running deadline, some exactly when the socket is held. |
| SocketGate.Foreground.Claim | rust/chain/src/foreground.rs:63-69 | A claim takes a new id and runs for its hold. |
| SocketGate.Foreground.Renew | rust/chain/src/foreground.rs:73-80 | A renewal runs from its own moment, taken again if it had run out. |
| SocketGate.Foreground.Release | rust/chain/src/foreground.rs:83-90 | A release forgets that id and no other. |
| SocketGate.Foreground.IsClaimed | rust/chain/src/foreground.rs:93-99 | Whether any send holds the socket now, by the whole history. |
| SocketGate.WaitsOnlyWhileHeld | rust/chain/src/foreground.rs:104-122 | In every interleaving without a cutting renewal, a walk that sleeps on finds the socket held; no release between its read and its sleep is lost. |
| SocketGate.OnlyACutIsMarked | rust/chain/src/foreground.rs:73-80 | Only a renewal that moves a claim from at or past a sleeping walk's deadline to before it counts as cutting. |
| SocketGate.ReleaseLetsGo | rust/chain/src/foreground.rs:83-122 | A release at any point of a walk's wait, between its registering, its read and its sleep too, lets it through at that instant if no other send holds the socket, and makes it look again if one does. |
| SocketGate.LeavesExactlyWhenFree | rust/chain/src/foreground.rs:104-122 | When it looks, a walk goes through if and only if no send holds the socket. |
| SocketGate.NeverOutlasts | rust/chain/src/foreground.rs:104-122 | A walk never waits past the greatest deadline granted. |
| SocketGate.IdlesExactlyWhen | rust/chain/src/foreground.rs:101-122 | A sleeping walk can come to sleep on at a free socket if and only if no running claim reaches its deadline. |
| SocketGate.ShorteningRenewalIdles | rust/chain/src/foreground.rs:73-80 | A renewal that shortens the only claim brings a sleeping walk to that state. |
| Discovery.Position | rust/chain/src/discovery.rs:121-124 | An address is found at its first position in the chunk, or is not in it. |
| Discovery.HighestFundedInChunk | rust/chain/src/discovery.rs:106-129 | The reduction finds the highest funded offset, by address, whatever the entries' order and whatever else they name. |
| Discovery.HighestFundedIndex | rust/chain/src/discovery.rs:55-66 | The wallet's scan, in chunks of 128 addresses. |
| Discovery.ScanChunks | rust/chain/src/discovery.rs:80-95 | The chunk loop answers the first failed chunk's error, or the greatest 32-bit index of a funded address. |
| Discovery.ErrorExactlyOnFailure | rust/chain/src/discovery.rs:80-95 | The whole result is an error if and only if some chunk failed. |
| Discovery.ScanFindsTheHighestFunded | rust/chain/src/discovery.rs:80-129 | For up to 2^32 distinct addresses the chunked scan answers the unchunked question. |
| Discovery.WrapExactly | rust/chain/src/discovery.rs:86-90 | Over any number of distinct addresses it names the highest funded one if and only if its position fits 32 bits. |
| Discovery.ChunkSizeDoesNotMatter | rust/chain/src/discovery.rs:80-95 | Two scans of any chunk sizes told the same answer the same index, for any number of distinct addresses. |
| CloseLane.Head.WriteStr | rust/bridge/src/logging.rs:146-157 | One write takes what still fits and refuses more once the head is full. |
| CloseLane.RenderHead | rust/bridge/src/logging.rs:139-157 | The head is the line's first 16 bytes, however the line was cut. |
| CloseLane.Capped.WriteStr | rust/bridge/src/logging.rs:224-237 | One write takes the longest cut, on a character boundary, that the room allows. |
| CloseLane.RenderCapped | rust/bridge/src/logging.rs:214-237 | The capped line is the line's longest prefix within 800 bytes on a character boundary, however it was cut. |
| CloseLane.CutsAreCharacters | rust/bridge/src/logging.rs:228-230 | In UTF-8 (section 3 of RFC 3629), such a cut is a whole number of characters, and every prefix of characters is one. |
| CloseLane.SpelledIsTheText | rust/bridge/src/logging.rs:146-237 | Any cutting of a text into strings is a fragmentation the writers accept, and its line is the text. |
| CloseLane.LaneOfHead | rust/bridge/src/logging.rs:176-212 | Sixteen bytes decide: the verdict on the head is the verdict on the line. |
| CloseLane.CloseLane | rust/bridge/src/logging.rs:197-212 | The lane depends on the line alone, not on its fragmentation. |
| Contacts.SanitizeName | rust/chain/src/contact_names.rs:83-110 | The loop gives the name's words with single spaces, cut at 40 characters and trimmed, although its space push passes the length check. |
| Contacts.SanitizedIsClean | rust/chain/src/contact_names.rs:83-110 | Every cleaned name has at most 40 characters, no leading, trailing or doubled space and no control or deceptive-format character. |
| Contacts.CleanExactly | rust/chain/src/contact_names.rs:83-110 | Cleaning leaves a name alone if and only if it is clean. |
| Contacts.Idempotent | rust/chain/src/contact_names.rs:83-110 | Cleaning twice changes nothing. |
| Contacts.DroppedIsNothing | rust/chain/src/contact_names.rs:97-128 | A dropped character anywhere in a name changes nothing in what is stored. |
| Contacts.ContactNames.Set | rust/chain/src/contact_names.rs:66-74 | A name is stored clean and not empty, or its entry is removed. |

## Left out

- KvRuns.Recovery: speaks of one log instance per file, as the code relies on.
- KvRuns.LoadSettles: asks that the replayed state can be imaged, which for canonical frames always holds (`KvImage.ReplayedImage`).
- KvFormat.TornHoldsNoFrame: claims nothing about bytes whose checksum matches by accident; CRC-32 detects arbitrary corruption only with high probability.
- CursorRuns.CursorSafety: takes a message page as one step of the loop; the interleaving of its sections with a sender lookup is `MessageWalk.SenderAnsweredOnce`. What the node delivers live is taken as it comes: nothing ties one live batch to the next. A restart inside a run is not a step: each run starts from a load.
- SerialRuns.WalkThenFeeds: takes a block to read alike each time it is asked for during one walk, and lets no watch be added or pruned meanwhile (`FoldRuns.CompleteMeansDurable` asks neither); displacement and acceptance clocks are those of the fold that writes them.
- ChainBatch.RefoldHeals: compares status and accepting block, not displacement times, which are the clock's.
- SocketGate.WaitsOnlyWhileHeld: lets no time pass while a woken walk re-reads the claims; the runtime's scheduling delay is not modelled. Its runs renew issued ids only, as every caller does; what another renewal does is `SocketGate.StrayRenewalLingers`.
- FillWalk.WalkCovers: takes a table that does not change during the walk and a server that fills its pages; `FillWalk.WalkIsHonest` is what holds of any server.
- Durable.Volume.AtomicWrite: one writer on the target path, and no file with two names.
- The checksum's self-test and the removal of files copied aside.
- The retries inside one catch-up page and the backoff between the walks of one hold.
- That a depth read from the sink-score fallback is conservative: the score is refreshed only when it is zero, so it can be older than the block it stands in for.
- A deadline or a counter that overflows its machine integer, apart from the scan's 32-bit index and the walk's saturating ceiling.
- The rate gate of the log lane: a counter per window.
- RPC calls, HTTP fetches, log lines, JSON and the record coding's own format.
