# A verified model of ublkera's changed-block tracking

ublkera passes a block device through to a backing file and records, chunk by chunk, the *era* of the
last write. A backup consumer closes eras with `checkpoint` and copies only what `dump --since` reports.
The one promise is *no false negatives, ever*: a block written after a cursor's checkpoint is reported,
or the cursor is refused, or everything is reported. This project states that promise over every
interleaving of requests, checkpoints, scans, saves, kills, metadata losses and power losses, proves it,
and says exactly which consumers it is kept for.

`dafny verify dfyconfig.toml` checks everything.

## How the project is laid out

| layer | modules |
|---|---|
| bytes and shapes | `Bytes` (little-endian fields), `Geometry` (chunks of a device), `Options` |
| the metadata file | `Crc32` (shift register, table loop, error detection), `MetaCodec` (what `save` writes, what `load` accepts) |
| the era map | `Ranges` (the reported list), `Race` (concurrent stamping as a step machine), `EraHistory` (the map as a history of calls), `EraState` (the class) |
| the device below | `CachedDisk` (values), `Durability` (whole runs of it), `SplitMix` (the draws), `DiskModel` (the class) |
| the target | `Tags` (the per-tag state machine) |
| the daemon and its client | `Manager` (the history lifecycle of one device), `Harness` (the chaos harness with its consumer) |
| everything at once | `System` (one step machine over all of it), `Runs` (building runs of it), `Contract` (its invariant and the promise), `Exact` (which consumers, exactly), `Lifecycle` (the daemon's operations are runs of it), `Cursors` (the promise about cursors), `QuietBackup`, `Recovery`, `Sandwich` |

Code that works by updating in place is imperative here: `EraState`, `DiskModel.Model`, `SplitMix.Rng`,
`Manager.DeviceManager`, `Harness.Harness`, `Tags.Queue` and the CRC loops are classes and methods over
arrays, each proved against a function on values; the lemmas are about those functions. Interleavings
cannot be written as methods, so they are step machines: `Race` has one step per atomic access of
`mark_write` and `checkpoint`, and `System` adds, as steps of its own,

* attach: a fresh history, or load, recover and write the unclean marker (`src/manager.rs:118-157`);
* a save in seven steps, with a partial write of any length, a sync and a rename, each of which may be the
  last one before a failure or a kill (`src/era.rs:174-199`);
* a request that may change any of its bytes any number of times while its backing IO runs, then the steps
  of `mark_write`, then its acknowledgement (`src/target.rs:208-231`, `src/era.rs:103-124`);
* a checkpoint and its save (`src/manager.rs:377-404`), a dump that loads one chunk a step
  (`src/manager.rs:301-344`), a consumer that copies any set of pending bytes a step
  (`src/bin/chaos.rs:312-359`);
* autonomous writeback, flush and seeded power loss of a disk with a volatile cache below
  (`ublkfault/src/model.rs:153-211`);
* detach with its final clean save (`src/manager.rs:474-479`), a kill at any point that leaves anything at
  all in the temporary file, deletion of the metadata file, and its rotting by up to four bytes.

`System.Kind` is how a consumer behaves: whether it takes its checkpoint before it copies, whether it
minds `meta_saved: false`, whether it flushes in between, and whether it passes the generation.
`System.Env` is what surrounds the device: whether it has a metadata file, whether the disk below can lose
power.

## What the theorems say about the code

* `Exact.ExactlyTheSoundConsumers` is the main result: for each kind of consumer and each environment, the
  promise holds in all runs if and only if the consumer checkpoints first, minds `meta_saved` where there
  is a metadata file, flushes where the disk below can lose power, and passes its generation. Each of the
  four conditions comes with a run that loses a write without it.
* Cursor safety, atomic saves, the meaning of "clean" and unclean recovery do not depend on the consumer and
  are proved for all of them; only what is said of the consumer's own image needs a sound one.
* `Cursors.NothingLandedIsMissed` says it of cursors, for every consumer and in terms of what happens in the run
  alone: whatever lands after a saved checkpoint closed its era is reported for that era ever after.
* The order of steps in `docs/dump-format.md:63-64` and `README.md:59-61` (full copy, then checkpoint) loses
  a write that lands between the two (`Exact.CopyFirstLoses`). The consumer in `src/bin/chaos.rs` takes the
  checkpoint first.
* `checkpoint` answers ok with `meta_saved: false` when its save fails. A consumer that adopts such a
  cursor, as the one in `src/bin/chaos.rs` does, can lose a write after a crash, because the era counter
  comes back lower inside the same generation (`Exact.TrustingLoses`).
* `load` takes any non-zero clean field for "clean", so re-saving an accepted file gives back its bytes
  exactly when that field is 0 or 1 (`MetaCodec.SaveOfLoad`), and every state has files with other fields
  (`MetaCodec.OddFieldIsClean`).
* An attach whose device comes up and fails at once leaves a *clean* file behind; one whose control device
  cannot be made leaves the unclean marker (`Manager.DeviceManager.Add`).

## Assumptions

* Atomic accesses interleave sequentially consistently; one control request runs at a time.
* The era counter does not run out of its 32 bits (`docs/memory.md:71-73`); `offset + len` fits 64 bits.
* A completed rename survives a crash; the temporary path differs from the metadata path; two saves of one
  file do not overlap (`docs/concurrency.md:134-138` names the exception).
* Fresh generations differ from all earlier ones; a device has a metadata file always or never.
* When the target's loop returns, all backing IO has been handled. Whatever a killed daemon's backing IO
  still does to the disk is done before the next attach. Nothing else writes to the backing while detached.
* Outcomes of file operations, random draws, backing IO results and the environment's choices are
  arbitrary.

## Model

| member | source | states |
|---|---|---|
| Contract.NoFalseNegatives | src/bin/chaos.rs:312-359 | In every state that any run reaches, for a sound consumer, whenever `dump` would accept the consumer's cursor, every byte where image and device differ is reported or lies under an unfinished request |
| Contract.CursorsAreSafe | src/manager.rs:301-332 | For any consumer, in every state that any run reaches, what the system remembers of saved checkpoints of the current history is of closed eras, and what it remembers of bytes landed since is reported or under an unfinished request; `Cursors` says that it remembers all of them |
| Cursors.NothingLandedIsMissed | docs/testing.md:3-9 | For any consumer: a checkpoint closes era n and is saved; then in every later live state of that history, after any run, n is closed and every byte that landed after the counter advanced, before or after the rename, is reported since n or lies under an unfinished request |
| Cursors.CleanFileMissesNothing | src/manager.rs:118-128 | After such a checkpoint, in any later state, a metadata file of that history that loads clean has an era above n and chunk eras above n wherever a byte landed since |
| Cursors.RecoveryIsAbove | src/manager.rs:129-136 | After such a checkpoint, an attach from an unclean file of that history goes on at an era above n with every chunk above n |
| Cursors.SavedIsRemembered | src/manager.rs:377-404 | The system remembers every saved checkpoint with its era, and for it every byte that any later landing covers |
| Contract.StepKeepsInv | src/manager.rs:118-157 | For any consumer, every step of anybody (attach, save step, request step, landing, flush, power loss, checkpoint, scan, copy, detach, kill, metadata loss, rot) keeps the system invariant |
| Contract.RunKeepsInv | docs/testing.md:3-9 | Every run of steps keeps the system invariant |
| Contract.RecoverGuards | src/manager.rs:121-143 | Whatever an accepted file restores (clean as it stands, unclean with every chunk marked) answers rightly for every cursor of its history |
| Contract.RenameCheckpoint | src/manager.rs:391-401 | The rename of a checkpoint's save keeps the invariant while handing out its cursor |
| Contract.CheckpointKeepsInv | src/era.rs:128-131 | Closing an era while requests and a backup are under way forgets nothing that any cursor relies on |
| Contract.LandKeepsInv | src/target.rs:208-231 | Bytes landing under a running request, at any moment of a save, scan or copy, keep the invariant |
| Contract.PowerLossKeepsInv | ublkfault/src/model.rs:167-198 | A power loss below a flushing consumer keeps the invariant |
| Contract.ScanChunkKeepsInv | src/era.rs:144-147 | One load of a dump without snapshot keeps what the new cursor and the pending copy must cover between them |
| Contract.EndDumpKeepsInv | src/manager.rs:332-343 | The ranges built from a finished scan cover every difference that the new cursor does not |
| Contract.CopyKeepsInv | src/bin/chaos.rs:326-339 | Copying any set of pending bytes at any moment leaves only differences above the new cursor or still pending |
| Contract.FinishKeepsInv | src/bin/chaos.rs:356-358 | The end of a backup keeps the invariant for any consumer, adopting the cursor unseen or not; for a sound one the promise then holds for the new cursor |
| Contract.CrashKeepsInv | src/bin/chaos.rs:415-432 | A kill at any point, whatever it leaves in the temporary file, keeps the invariant |
| Contract.RotKeepsInv | src/era.rs:218-229 | A metadata file rotted within four bytes cannot bring a wrong history back |
| Exact.ExactlyTheSoundConsumers | src/bin/chaos.rs:312-359 | The promise holds in all runs if and only if the consumer checkpoints first, minds `meta_saved` where there is a metadata file, flushes above a disk that can lose power, and passes the generation |
| Exact.CopyFirstLoses | docs/dump-format.md:63-64 | A run in which the documented order (full copy, then checkpoint) loses a write |
| Exact.TrustingLoses | src/manager.rs:394-401 | A run in which a consumer that adopts the cursor of an unsaved checkpoint loses a write after a crash |
| Exact.UnflushedLoses | scripts/sandwich-guest-init.sh:61-71 | A run in which a consumer that does not flush above a power-losing disk ends with an image that differs unreported |
| Exact.BareCursorLoses | src/manager.rs:307-321 | A run in which a cursor without its generation is accepted by another history and loses a write |
| Exact.BackupFallsBehind | src/bin/chaos.rs:312-359 | Every consumer that checkpoints first reaches states where `dump` accepts its cursor and its image differs from the device, so the promise is never empty |
| QuietBackup.BackupIsExact | src/bin/chaos.rs:361-367 | From every reachable state with no open request, a backup that no request races ends with the image equal to the device, whatever checkpoints, failing saves, flushes and power losses happen meanwhile |
| QuietBackup.QuietRun | src/bin/chaos.rs:312-359 | While no request steps, no chunk becomes newer than the era the backup closed |
| Recovery.OnlyCompleteFiles | src/era.rs:169-199 | Apart from loss and rot, only the rename of a save changes the metadata file, and it puts there a complete snapshot that loads back as itself, clean exactly for a final save; whoever the consumer is |
| Recovery.CleanMeansUntouched | src/manager.rs:474-479 | Over every run, when the metadata file loads clean with history h, the device was detached with exactly h in memory and no byte has landed since |
| Recovery.NoLandOnClean | src/era.rs:169-173 | While a file that loads clean is there, no request can change a byte |
| Recovery.CleanMeansComplete | src/manager.rs:118-128 | In every reachable state a file that loads clean belongs to a device that is not live; its eras are above a sound consumer's cursor wherever its image differs, and above what is remembered of saved checkpoints |
| Recovery.RecoveryIsAboveEveryCursor | src/manager.rs:129-136 | An unclean recovery puts every chunk above every cursor of that history that a saved checkpoint ever handed out |
| Sandwich.LostWritesAreReported | scripts/sandwich-guest-init.sh:61-71 | In any reachable state of a live device, for any consumer, from an honest flush with era n closed on, through any run under the living daemon, every byte a power loss changes is reported since n or lies under an unfinished request |
| Sandwich.StepKeepsStack | src/target.rs:214-229 | Every step keeps all cached bytes above the closed era |
| Race.StepKeepsInv | src/era.rs:103-131 | Every atomic step keeps the invariant, lowers no chunk's era, and lets none exceed the current era |
| Race.ReloadPublishes | src/era.rs:118-122 | At the load that ends a call every covered chunk carries the era current at that moment |
| Race.AboveIsStable | src/era.rs:95-102 | Once a byte is above a closed era or under an unfinished call, no step makes it look unchanged since that era |
| Race.NeverForgotten | src/era.rs:95-102 | The same over every run of any number of overlapping calls and checkpoints |
| Race.PassesBounded | src/era.rs:113-123 | From the beginning of a call to its end it loads the era for at most one pass more than the checkpoints that ran meanwhile |
| Race.NonAtomicScan | src/era.rs:142-156 | A scan interleaved with anything reports at least every chunk newer than `since` when it started and at most those newer when it ended |
| EraHistory.MarkIsRun | src/era.rs:103-124 | The sequential `mark_write` is a run of the step machine: one pass, the same eras, other requests untouched |
| EraHistory.EraIsLastTouch | src/era.rs:103-131 | After any calls one after another, a chunk's era is above n exactly when some call touched it while an era above n was current |
| EraHistory.ReportIsHistory | src/era.rs:142-156 | After any calls one after another, a byte is in `ranges_since(n)` exactly when its chunk was touched by a marked op, or by mark-all-dirty, in an era above n |
| EraHistory.CallsAreRun | src/era.rs:103-168 | The eras that any calls one after another make are those of a run of the step machine from a fresh map |
| EraHistory.RunIsHistory | src/era.rs:103-131 | Over every run of overlapping calls and checkpoints a chunk's era is above n exactly when it was before or some request holding a byte of it stamped it with an era above n |
| EraHistory.OverlappingReport | src/era.rs:103-156 | From a fresh map on, under any interleaving, `ranges_since(n)` reports a byte exactly when its chunk was stamped with an era above n by a request that holds a byte of that chunk |
| EraHistory.StampsWhatItHolds | src/era.rs:107-112 | A stamp never goes to a chunk of which its request holds no byte |
| EraHistory.TouchedChunks | src/era.rs:107-112 | The chunks between the two divisions are exactly those holding a byte of the range, clamped tail included |
| EraState.EraState.New | src/era.rs:63-81 | Refuses exactly the granularities that are not 2 to some power and at least 4096; otherwise era 1, all chunks 0 |
| EraState.EraState.MarkWrite | src/era.rs:103-124 | Exactly the chunks that hold a byte of the range are raised to the current era, no byte of the device in the range is left out, nothing else changes; zero length and out-of-range offsets change nothing |
| EraState.EraState.StampUntilCurrent | src/era.rs:113-123 | The retry loop ends, with the covered chunks raised to the current era |
| EraState.EraState.Checkpoint | src/era.rs:128-131 | Returns the closed and the new era and advances the counter by one |
| EraState.EraState.RangesSince | src/era.rs:142-156 | Builds the canonical range list of the array |
| EraState.EraState.MarkAllDirty | src/era.rs:162-168 | Every chunk is raised to the current era |
| EraState.EraState.Serialize | src/era.rs:179-193 | The buffer is the encoding of the state with its checksum filled in |
| EraState.EraState.Save | src/era.rs:174-199 | However far the save gets, the metadata file is the old one or the complete new one, and the temporary file holds what was written so far |
| EraState.EraState.Load | src/era.rs:206-264 | Yields the decoded state and clean flag, or the first failing check's error, as the codec says |
| Ranges.RangesExact | src/era.rs:142-156 | A byte is reported exactly when it is on the device and its chunk was loaded as newer than `since` |
| Ranges.RangesCanonical | docs/dump-format.md:43-58 | The list is sorted, disjoint, never adjacent, cut at chunk edges but for the device's tail, inside the device, and the only such list for its bytes |
| Ranges.TotalLenCounts | src/manager.rs:332-333 | `dirty_bytes` is the number of reported bytes |
| Crc32.TableEntry | src/era.rs:26-32 | A table entry is eight clocks of the shift register |
| Crc32.Checksum | src/era.rs:24-40 | The table-driven loop over the parts computes the register's CRC of their concatenation |
| Crc32.PolyIsTheGenerator | src/era.rs:29 | The polynomial's bits are the terms of the generator of section 8 of RFC 1952, reflected |
| Crc32.CheckValue | src/era.rs:24-40 | The CRC of the nine digits is the published check value CBF43926 |
| Crc32.TableStepIsRegister | src/era.rs:33-38 | One table lookup is eight clocks of the register with the byte mixed in |
| Crc32.ByteShiftIsInjective | src/era.rs:28-30 | Eight clocks lose no state |
| Crc32.RegisterIsInjective | src/era.rs:33-38 | Different states never merge while the same bytes go through |
| Crc32.MeetingRuns | src/era.rs:24-40 | Two runs over up to four bytes that end alike began exactly the difference of those bytes apart |
| Crc32.BurstChangesCrc | src/era.rs:16-20 | Any change confined to four consecutive bytes changes the CRC, in data of any length |
| MetaCodec.LoadOfSave | src/era.rs:174-264 | For every state, loading what was saved gives back the state and the clean flag |
| MetaCodec.LayoutOfSave | src/era.rs:179-193 | Every field of a saved file lies at its offset in little-endian, magic and version are the format's, and the checksum is the CRC of the file with its own field zeroed |
| MetaCodec.LittleEndian | src/era.rs:214 | A four-byte field counts its first byte once, the second 2^8 times, and so on |
| MetaCodec.FirstFault | src/era.rs:208-248 | Length, magic, version, checksum, granularity and size are checked in this order: each error is answered exactly when its check is the first to fail |
| MetaCodec.OtherDeviceRefused | src/era.rs:235-248 | A saved file offered for another granularity or device size is refused for that |
| MetaCodec.LoadOfField | src/era.rs:233-263 | A well-checksummed file with any clean field loads as its state, clean exactly when the field is not zero |
| MetaCodec.OddFieldIsClean | src/era.rs:233 | For every state and every field above 1 there is an accepted file that loads clean and is not what `save` writes |
| MetaCodec.FieldOfLoad | src/era.rs:206-264 | An accepted file is determined by the state it loads and its clean field |
| MetaCodec.SaveOfLoad | src/era.rs:206-264 | Re-saving an accepted file reproduces its bytes if and only if its clean field is 0 or 1 |
| MetaCodec.AcceptedIsWellFormed | src/era.rs:229-263 | What `load` accepts is a state of that device, in a file of exactly the right length |
| MetaCodec.WrongLengthRefused | src/era.rs:203-210 | Every strict prefix and every proper extension of an accepted file is refused, whatever the checksum comparison would say |
| MetaCodec.BurstRefused | src/era.rs:218-229 | A change within four consecutive bytes that does not straddle an edge of the checksum field is refused, behind the version field as a checksum mismatch |
| Tags.QueueDiscipline | src/target.rs:195-250 | Over every run of a queue each fetch has one completion or is the one outstanding, at most one backing IO per tag is out; every submission is of its command's own kind, at 512 times its start sector over 512 times its sectors; every completed write or discard was stamped over that whole range right before, whatever its result; EAGAIN only resubmits |
| Tags.StepKeepsRules | src/target.rs:214-249 | One more event keeps the rules of the whole log |
| Tags.StepKeepsBalance | src/target.rs:197-207 | One more event keeps fetches paired with completions and submissions with backing completions |
| Tags.Queue.HandleIoCmd | src/target.rs:208-250 | A backing IO that ended is completed with its result, a write or discard stamped over its byte range before; EAGAIN and new commands submit the request the command asks for, unsupported ops are refused; the era map changes by that stamp alone |
| Tags.MadeAsAsked | src/target.rs:163-193 | READ, WRITE, FLUSH and DISCARD become a read, write, fsync and hole punch at their byte offset and length (modulo 2^32 for reads and writes); other ops become nothing |
| Tags.AskedIsStamped | src/target.rs:218-231 | Only writes and discards submit a request that changes data, and below 2^32 bytes the range submitted is the range stamped |
| Tags.StampOfTurn | src/target.rs:215-232 | The stamps of a turn are those of the whole range of a completed write or discard, whatever its result, and none otherwise |
| Tags.Queue.Serve | src/target.rs:195-250 | An event and its handling are one step of the queue machine, and stamp what that step's log says |
| Tags.Queue.WaitAndHandleIo | src/target.rs:252-285 | The loop of a queue is a run of the queue machine over its events; the era map ends as the stamps in its log make it |
| CachedDisk.ViewOfDrain | ublkfault/src/model.rs:203-210 | Autonomous writeback cannot be seen by a reader |
| CachedDisk.ViewOfPush | ublkfault/src/model.rs:200-211 | A cached write is visible at once, whatever it pushes out |
| CachedDisk.DrainToFit | ublkfault/src/model.rs:203-210 | Writeback takes the oldest entries, as many as it takes to fit the capacity and not one more; with room it takes none |
| CachedDisk.PowerLossExact | ublkfault/src/model.rs:166-198 | After a power loss every byte is what the newest surviving cached block says, else the committed byte |
| CachedDisk.PowerLossLocal | ublkfault/src/model.rs:166-198 | A power loss changes what a reader sees only where something was cached |
| Durability.FlatRefinement | ublkfault/src/model.rs:118-164 | Over every run without power loss the view is a flat disk to which each op was applied in order |
| Durability.FlatRefinementStep | ublkfault/src/model.rs:128-164 | One write stores its data, a failed one its prefix of whole blocks, a discard zeros, a flush nothing, in the view as on a flat disk |
| Durability.FlatBytes | ublkfault/src/model.rs:128-151 | What an op does to a flat disk, byte by byte |
| Durability.FlushIsDurable | ublkfault/src/model.rs:153-198 | From an honest flush on, through any block-aligned ops and power losses, every logical block holds its flush-time contents or entirely what one later op gave it |
| DiskModel.Overlay | ublkfault/src/model.rs:220-230 | The window takes the overlapping part of the data and keeps the rest |
| SplitMix.Rng.Hit | ublkfault/src/model.rs:39-42 | Hits exactly when the rate is not zero and the draw out of 1000 is below it, so always at 1000; at zero nothing is drawn |
| SplitMix.FirstOutput | ublkfault/src/model.rs:28-35 | The generator's first output for seed 0 is the published one |
| DiskModel.Model.Read | ublkfault/src/model.rs:118-125 | The window is that slice of the flat view; the disk does not change |
| DiskModel.Model.PushVolatile | ublkfault/src/model.rs:200-211 | The entry joins the cache; the oldest entries leave it, as many as it takes to fit and no more, none if all fit; the byte count stays exact and the loop ends for entries of any size |
| DiskModel.Model.Write | ublkfault/src/model.rs:128-143 | Fails with EIO exactly when the draw is below the error rate; the view then has a prefix of whole blocks, as many as drawn, else all the data, answered with its length; the counters to match |
| DiskModel.Model.KeepPrefix | ublkfault/src/model.rs:133-138 | A failed write leaves as many whole blocks as were drawn |
| DiskModel.Model.Discard | ublkfault/src/model.rs:148-151 | The view reads as zeros in the range and is unchanged elsewhere; the zeros enter the cache like a write |
| DiskModel.Model.Flush | ublkfault/src/model.rs:153-164 | A lie exactly when the draw is below its rate, and then nothing changes; else the view is committed and the cache empty |
| DiskModel.Model.Crash | ublkfault/src/model.rs:167-198 | Each byte is what the newest surviving cached block says, else the committed one; each entry's fate is drawn from the seed, 40 of 100 whole, 30 none, 30 torn block by block; the report counts each entry once |
| DiskModel.Reproducible | ublkfault/src/model.rs:24-25 | From the same seed the same entries meet the same fate, block by block |
| DiskModel.Model.TearEntry | ublkfault/src/model.rs:181-193 | Each logical block of a torn entry persists or not by its own draw |
| Manager.DeviceManager.Begin | src/manager.rs:118-147 | The starting history is the loaded one, marked all dirty if unclean, or a fresh one; refused exactly when `load` or the granularity is, with that error |
| Manager.DeviceManager.Prepare | src/manager.rs:88-157 | An id in use, a backing that does not open, a bad size, a device attached, a history that does not load and a marker that is not saved are answered in this order, changing nothing; else the starting history is on disk as unclean |
| Manager.DeviceManager.Add | src/manager.rs:85-215 | The same obstacles in the same order, changing nothing; otherwise the device serves the file's history (as it is if clean, all dirty if not) or a fresh one of era 1, flagged accordingly, with its marker on disk; or it failed to start and left the marker or a clean file |
| Manager.DeviceManager.Dump | src/manager.rs:301-344 | Refuses exactly a foreign generation or an era not yet closed, and otherwise reports exactly the bytes of chunks newer than `since`, as the canonical list, and its size |
| Manager.DeviceManager.Checkpoint | src/manager.rs:377-404 | Advances the era and answers ok even when the save fails; the file is the new unclean snapshot or the old file |
| Manager.DeviceManager.Del | src/manager.rs:241-257 | The device is gone; the file is the final clean snapshot, or the old file when the save fails |
| Runs.SaveSucceeds | src/era.rs:174-199 | A save on a device of any size is a run of the system that ends with the complete snapshot renamed |
| Lifecycle.AddIsRun | src/manager.rs:118-157 | Every way an attach can go is a run of the system, on a device of any size, with the history and the file that its contract states |
| Lifecycle.CheckpointIsRun | src/manager.rs:377-404 | So is a checkpoint, saved or not |
| Lifecycle.DelIsRun | src/manager.rs:474-479 | So is a detach, saved or not |
| Lifecycle.WriteIsRun | src/target.rs:208-231 | So is a write: the view takes its data, its chunks the current era, nothing else changes |
| Lifecycle.BackupIsRun | src/bin/chaos.rs:312-359 | So is a backup with its dump: the image takes the device's bytes exactly in the chunks newer than an accepted cursor, or everywhere if it is refused, and the new cursor is adopted |
| Harness.Harness.constructor | src/bin/chaos.rs:574-618 | A zeroed device and image, attached with a fresh history at era 1 and no cursor, start with no difference missed |
| Harness.Harness.OpWriteBurst | src/bin/chaos.rs:282-300 | Any burst of writes lands in order, keeps device and expectation equal and every difference covered |
| Harness.Harness.OpCheckpoint | src/bin/chaos.rs:303-309 | Closes the current era; the file is beyond the new cursor exactly when the save succeeded |
| Harness.Harness.CopyRanges | src/bin/chaos.rs:326-339 | The image takes the device's bytes on every reported range and nothing else |
| Harness.Harness.OpBackupVerify | src/bin/chaos.rs:312-391 | After a backup, incremental or full, its checkpoint saved or not, both checks succeed: device as expected, image equal to device; the cursor is vouched for exactly when the checkpoint was saved |
| Harness.Harness.OpReattach | src/bin/chaos.rs:394-410 | A graceful detach and attach restores the same history, is not flagged unclean, and vouches for the cursor |
| Harness.Harness.OpCrash | src/bin/chaos.rs:415-432 | With a cursor that the file vouches for, a kill and recovery is flagged unclean, keeps the generation and covers every difference |
| Harness.Harness.OpCrashInflight | src/bin/chaos.rs:447-542 | So is a kill with writes in flight, of which anything may have landed unstamped inside the undefined ranges; outside them every completed write survives, and adopting them alone makes the expectation right |
| Harness.Harness.AdoptRanges | src/bin/chaos.rs:524-530 | The expectation takes the device's bytes in the undefined ranges and nowhere else |
| Harness.Harness.OpLoseMeta | src/bin/chaos.rs:546-571 | Deleting the metadata begins a new generation, not flagged unclean, and the old cursor is refused |
| Harness.WriteCovered | src/era.rs:103-124 | Stamping a write covers every difference it makes |
| Harness.IncrementalIsExact | src/bin/chaos.rs:322-345 | Copying what is reported repairs every difference |
| Harness.RecoveredCovered | src/manager.rs:129-136 | Marking everything after an unclean load covers every difference |

## Left out

- EraState.EraState.New: the generation is a parameter; failing to read `/dev/urandom` is not modelled, here
  or where `load` makes its state.
- EraState.EraState.StampUntilCurrent: runs alone, so its loop makes one pass; calls that race checkpoints
  and retry are in `Race`.
- Manager.DeviceManager.Add: a failing size query, the 15-second startup timeout and a panicking supervisor
  are not modelled.
- Manager.DeviceManager.Del: a device delete that fails and a panicking supervisor are not modelled.
- Harness.Harness.OpReattach: the final save succeeds, as the harness demands by its check for an unclean
  attach.
- Harness.Harness.OpLoseMeta: the final save succeeds here too.
- Harness.Harness.OpCrash: speaks of cursors that the file vouches for, which is exactly what
  `Harness.Harness.OpBackupVerify` says of a saved checkpoint; for others the property is false
  (`Exact.TrustingLoses`).
- MetaCodec.BurstRefused: a change that straddles an edge of the checksum field alters the stored value and
  the data at once, and one of more than four bytes can meet the same checksum; neither is spoken of.
- Contract.RotKeepsInv: has the same limits as `MetaCodec.BurstRefused`.
- Weak memory: the Acquire/AcqRel orderings are modelled as sequentially consistent interleaving.
- libublk, io_uring, `init_tgt` parameters, ioctls, sysfs probing and O_DIRECT buffers: foreign calls; a
  backing IO is "may change its bytes any number of times before it completes".
- `src/ctl.rs`, `src/main.rs`, sockets, JSON, CLI, daemonizing and logging: plumbing around the same calls.
- The registry of several devices, `resolve`, `reap` and a device deleted by an external tool during a
  checkpoint: one device is modelled, and its supervisor is its detach.
- `list`, `status` and `written_chunks`: they only read.
- Wrap-around of the era counter and of 64-bit offsets: excluded by the assumptions above.
- Requests that change no data do not appear in `System`; `Tags` has them.
- `ublkfault/src/main.rs` (park and thaw, the hang policy and its counter) and `ublkfault/src/scenario.rs`.
- The quality of splitmix64 and of `/dev/urandom`: `System` takes any draws, and fresh generations are new.
- Point-in-time consistency of a copy taken under load: the code does not claim it.
- The 4 KiB alignment and size limits of the harness's random writes, and its four writer threads: any writes
  inside the device are allowed, the completed ones of a kill in the order in which they completed.
