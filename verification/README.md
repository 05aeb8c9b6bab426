# A verified model of the Totem compass emulator

This Dafny project models the parts of the repository with the most state and proves what they are for. It covers

- **the settings journal** (`Journal`, `CrashSafety`, `Rescan`, `FlashLog`): one flash sector holding an append-only log whose
  writes only clear bits and can be cut short by a reset. The specification of a scan and of a save are functions on
  bytes; the sector and the journal are classes that change in place; the theorems are about whole runs of saves,
  failed writes, resets and reopens;
- **the record codec and the settings store on top** (`StateCodec`, `Utf8`, `Settings`);
- **the receive ring** (`Ring`): producer and consumer, one memory access a step, with 32-bit counters that wrap;
- **the BLE session** (`WriteQueue`, `TxWindow`): the write queue with its single writer and coalesced acks, and the
  half-duplex transmit window with its waiters, each as a step system over arbitrary schedules;
- **the mesh node**: the locate frame and its in-place patch (`LocateFrame`), what one node does with a frame
  (`MeshNode`, `MeshStation`), a network of any number of them (`Flood`), the timer queue (`Timers`, `TimerDevice`)
  and the bond table with its pairing handshake (`Bonds`, `BondTable`);
- **three smaller machines**: the gesture recogniser (`Gestures`), the battery gauge and power modes (`BatteryGauge`,
  `PowerModes`) and the NMEA 0183 reader (`Nmea`, `NmeaText`, `NmeaReader`).

Where the source changes an object in place there is a class whose methods are proved equal to functions on a value
of the object's state; the promises over runs are lemmas about those functions. `dafny verify dfyconfig.toml` checks
everything.

## Reading the journal theorems

The checksum is a parameter: every theorem holds for every function from bytes to 32 bits, CRC-32 of section 3.2.9 of
IEEE 802.3 among them. What a real checksum makes unlikely is a hypothesis instead (`Honest`, `Truthful`,
`NoFalseCheck` in `CrashSafety` and `Journal`): no header given up on becomes true over bytes that land in the body it
claims, a cut record's checksum does not hold over other bytes than the payload's, and no payload holds the record
magic at a word offset. `Erase` is all or nothing, and writes land word by word in order. A failed erase that took
effect can be expressed, and is excluded from the runs of `LoadAfterReopen` as one more hypothesis.

The comment at `store/store.go:488-490` says the checksum word of a record is written last; the code writes the record
from its first byte on, so the checksum at offset 12 lands before the body. The model follows the code.

## What turned out false, and when it holds

- A completed save agrees with a fresh scan on everything but the torn count, and on that exactly if no failed write has
  left a torn header since the sector was last erased or opened (`Rescan.SaveMatchesRescan`, `Rescan.TornGoesUncounted`).
- A number on a cut record is counted by the next open after any run in which no save erases and then fails; after one that
  does, exactly if the header checks out all the same or the number is 1 (`Rescan.WreckedNumberIsCounted`,
  `Rescan.WreckAfterEraseRestarts`).
- An erase that takes effect and then reports failure breaks the journal's promise: over erased flash a completed save is
  loaded next exactly if it went to the start of the sector (`Rescan.GapHidesSave`, `Rescan.LyingEraseLosesSaves`).
- The settings key agrees with the record the journal would load after a save or a reset exactly if that did not clear
  a readable record and then fail to write (`Settings.StepKeepsInStep`); a run that does is `Settings.LossIsReached`.
  Afterwards the lost settings are not written again (`Settings.LostSettingsAreNotRewritten`).
- A batch keeps the transmit window exactly if no other thread's `Start` gives it away meanwhile
  (`TxWindow.OnlyStartDisturbs`, `TxWindow.StartBreaksBatch`).
- A locate frame's UID is kept until the frame expires exactly if that is less than 400 s ahead
  (`MeshNode.OutlivesFrame`, `Flood.ForgottenTooSoon`), and recording other frames leaves a live UID in the table exactly
  if fewer than 512 are live or another is evicted (`Flood.ForgetsOnlyTheVictim`, `Flood.EvictedTooSoon`). A clock set
  back brings an expired frame back exactly if it makes it unexpired (`Flood.ClockSetBack`).
- Patching a relayed frame is the same as re-encoding it exactly if its flag bytes are 0 or 1
  (`LocateFrame.PatchIsReencoding`).
- The bond limit of 8 is passed exactly by a handshake in an open window that had eight bonds and nobody chosen
  (`Bonds.OnlyHandshakePassesEight`, `Bonds.NinthBond`), and a ninth bond does not survive a restart
  (`Bonds.BondsSurviveRestart`).
- A battery reads 100 at its own learned ceiling exactly if that rounds to more than 3190 mV; a lower one can be learned,
  and reads 0 (`BatteryGauge.FullAtCeiling`, `PowerModes.LearnsEmptyCeiling`).
- Lowering the learned battery maximum lowers no reading exactly if the new one rounds to more than 3190 mV, or the old
  one stretched nothing that shows: 4119 mV or more, or itself 3190 mV or less. A maximum of 3.16 V learned after one of
  3.8 V does lower readings (`BatteryGauge.LowerMaximumReadsHigher`, `PowerModes.LowerCeilingReadsLower`).
- A bond that never got its ack is gone when the window closes, except exactly if a finished group closes it and lists
  that Totem early enough to be bonded to (`Bonds.UnconfirmedIsRolledBack`, `Bonds.GroupKeepsUnconfirmed`).

## Model

| member | source | states |
|---|---|---|
| `CrashSafety.LoadAfterReopen` | store/store.go:151-471 | From any sector contents, over every run of saves, failed writes, resets after any word and reopens, what a reopen loads is the save completed last or one whose write failed since; nothing only if nothing was there or a failed save had erased |
| `CrashSafety.RunIsSafe` | store/store.go:151-507 | The invariant behind it over whole runs: a rescan and the journal in memory both answer something allowed, and a later save lands where a scan arrives still believing something allowed |
| `CrashSafety.NextIsSafe` | store/store.go:369-471 | One save, failed write or reopen keeps that invariant |
| `CrashSafety.CompletedSaveSurvivesReset` | store/store.go:369-471 | A completed save followed by one cut short: the reopen loads one of the two payloads, or nothing or the second if that one had erased |
| `CrashSafety.CutRecordScans` | store/store.go:151-241 | A record cut after any word past its first: the next scan answers what it answered before or the payload meant, never bytes of the wreck |
| `CrashSafety.CutRecordBelieved` | store/store.go:480-507 | Wherever the head was left behind a cut record, a later save there is reached by a scan that still believes the same |
| `CrashSafety.NoMagicInWreck` | store/store.go:312-319 | Behind a cut header no word reads as the start of a record, so the scan resynchronizes on nothing |
| `CrashSafety.OpenedSaveMatchesRescan` | store/store.go:369-471 | From any sector contents, the first save after opening it, if it returns no error, leaves the journal in memory equal in every field to what a fresh open scans |
| `Rescan.SaveMatchesRescan` | store/store.go:369-507 | From any sector contents, after any run of saves, failed writes, resets and reopens, a save that returns no error: a fresh open scans the same head, number, payload and blank count, and exactly as many more torn headers as failed writes have left since the sector was last erased or opened, so all fields agree if and only if there are none |
| `Rescan.RunTracks` | store/store.go:369-507 | Over every run, a scan that arrives at the head has concluded what memory counts, plus those torn headers, with a number no larger than the next one saved |
| `Rescan.NextTracks` | store/store.go:432-471 | One save, failed write or reopen keeps that |
| `Rescan.CutTracks` | store/store.go:432-461 | Behind a record cut after any word the scan has one torn header more, unless the cut record checks out and ends before the head |
| `Rescan.TornGoesUncounted` | store/store.go:440-461 | On an erased sector a save cut after one word and then a completed one: memory counts no torn header and the next open counts one |
| `Rescan.WreckedNumberIsCounted` | store/store.go:202-280 | From any sector contents, after any run in which no save erases and then fails: a save cut anywhere past its number leaves a header with the number after the journal's, and the next open counts exactly that number although the header may prove nothing; so the next completed save carries a larger one |
| `Rescan.WreckAfterEraseRestarts` | store/store.go:202-280 | After a save that erased and was then cut past its number, the next open counts that number if and only if the header checks out all the same or the number is 1; otherwise it counts 1 |
| `Rescan.RunStaysCounted` | store/store.go:202-280 | Over every such run a scan that arrives at the head has met memory's number or the one after it |
| `CrashSafety.WholeRecordScans` | store/store.go:151-241 | A whole record put where a scan arrives is the newest record of the next scan, which ends right after it |
| `CrashSafety.WritesAreLegal` | store/store.go:432-441 | Every write is inside the sector, word aligned and onto bytes that are all 0xff, so clearing bits and overwriting are the same |
| `CrashSafety.SaveKeepsAligned` | store/store.go:369-507 | The head stays on a word boundary inside the sector, also after a failed write |
| `CrashSafety.SaveCounts` | store/store.go:398-471 | A completed save counts one more, up to the value before all ones; a save that failed counts nothing; all ones is never reached |
| `CrashSafety.RefusesExactly` | store/store.go:369-398 | A save says no exactly to an empty record, to one over 2048 bytes or too long for the sector, and to erased bytes whose checksum is all ones, each with its own error, and then changes nothing |
| `CrashSafety.CallsAreLegal` | store/store.go:426-525 | Every driver call of a save is in bounds: reads go to the end of the sector, the one write is a whole record on a word boundary, the one erase comes at most once |
| `CrashSafety.CallsTellResult` | store/store.go:369-471 | The last driver call tells how the save ended: none if refused, a write that worked if saved, a look behind the write if that failed, a failed erase otherwise; nothing follows a failed erase |
| `CrashSafety.RecordLayout` | store/store.go:402-413 | Where each field of a record lies: TTM1, the number, the length, two zero bytes, the checksum, the payload, and 0xff up to a word |
| `CrashSafety.HeadBehindTorn` | store/store.go:297-344 | Behind a header that proves nothing and has no other after it, the head is the first word boundary past which nothing is written |
| `CrashSafety.HeadBehindFailure` | store/store.go:480-507 | After a failed write the head is found the same way behind the header that landed, and stays where it was if none did or the look failed |
| `CrashSafety.ScanSeqBounded` | store/store.go:268-280 | After a scan of any bytes the number is below all ones, at least the largest number a record proved, and above it by at most the torn and blank headers met |
| `CrashSafety.ScanTellsWhatItMet` | store/store.go:151-241 | For every sector: of the headers a scan meets, each once and on behind what each claims or to the next magic, it loads the payload of the last that checks out over one, and counts as torn exactly those that do not check out and as blank exactly those that do over nothing |
| `CrashSafety.NextKeepsTidy` | store/store.go:369-525 | On a sector of any size that only this journal wrote, everything from the head on is erased after any event, and a save erases exactly when the record does not fit |
| `CrashSafety.RunKeepsTidy` | store/store.go:369-525 | Over every run from erased flash in which reads work, everything from the head on is erased and a scan arrives at the head |
| `Rescan.GapHidesSave` | store/store.go:432-441 | Over erased flash, wherever the head is, a completed save is what the next open loads if and only if it went to the start of the sector |
| `Rescan.LyingEraseLosesSaves` | store/store.go:432-441 | A run to where it did not: save, an erase that takes effect and reports failure, save; the journal holds the payload and the next open does not |
| `CrashSafety.ErasedScansEmpty` | store/store.go:151-241 | Erased flash scans empty, with the head at its start |
| `Journal.ScanArrives` | store/store.go:151-241 | The scan of a sector with a header put at its head arrives there believing exactly what was believed before it was put |
| `Journal.BelievedThrough` | store/store.go:151-241 | Seen from any position past the head, the same walk passes through the head |
| `Journal.ScanIsBelieved` | store/store.go:151-241 | Where a scan ends with nothing written beyond is a position a later scan arrives at |
| `Journal.SameHeader` | store/store.go:151-241 | Two sectors that agree on a header and the body it claims give it the same verdict |
| `Journal.ResyncAcross` | store/store.go:312-319 | With no word-aligned magic in between, resynchronizing lands exactly where a record was put |
| `Journal.Written` | store/store.go:331-344 | One past the last byte that is not erased: everything from there on is erased and the byte before is not |
| `FlashLog.Sector.ReadAt` | store/store.go:24-36 | A read that succeeds returns the bytes of the sector; the call and its answer are remembered |
| `FlashLog.Sector.WriteAt` | store/store.go:24-36 | Words land in order, bits only clear, a failure may come after any word, and how many landed is remembered |
| `FlashLog.Sector.Erase` | store/store.go:24-36 | An erase sets every byte to 0xff or changes nothing, and one that reports failure may have done either; both are remembered |
| `FlashLog.FindMagic` | store/store.go:312-319 | The first word at or after an offset that carries the magic with room for a header, or -1 |
| `FlashLog.FindHead` | store/store.go:331-344 | The head after everything written past an offset, rounded up to a word |
| `FlashLog.Log.KeepNumber` | store/store.go:268-280 | The method is the counter rule of the specification scan; that an unproven larger number moves the counter on by one is what Rescan.WreckedNumberIsCounted needs and proves |
| `FlashLog.Log.Resume` | store/store.go:297-302 | A header given up on is counted torn and the scan goes to the next magic, or the head behind what is written |
| `FlashLog.Log.ScanImage` | store/store.go:151-241 | The loop over a sector image concludes exactly what the specification scan does |
| `FlashLog.Log.StillErased` | store/store.go:511-525 | Makes one read, of everything from the offset on, and answers whether it succeeded and all of it is erased |
| `FlashLog.Log.HeadBehind` | store/store.go:480-507 | Makes one read, of everything behind a failed write; the head goes behind whatever landed after a header, and stays where it was if none did or the read failed |
| `FlashLog.Log.BuildRecord` | store/store.go:402-413 | Each field written at its offset gives the record: magic, number, length, reserved bytes, checksum, payload and erased padding to a word |
| `FlashLog.Log.MakeRoom` | store/store.go:432-439 | Looks whether the record can be appended and erases the sector exactly if not, keeping the journal as it was if the erase fails |
| `FlashLog.Log.Save` | store/store.go:369-471 | Sector, journal and result are what the specification save gives for exactly what the driver answered, and the driver calls made are the specified ones: the tail read only if there is room, an erase only if it does not fit or does not read as erased |
| `FlashLog.Log.WriteRecord` | store/store.go:440-471 | The write itself: a completed one moves the head past the record and keeps the payload; a failed one reads what landed and moves the head behind it |
| `FlashLog.Open` | store/store.go:94-111 | Fails exactly for no sector, one under 20 bytes or a failed read; otherwise the journal is the scan of the sector |
| `StateCodec.CodecIsBijection` | store/state.go:80-168 | decode(encode(s)) = s for every state that encodes, and encode(decode(b)) = b for every byte string that decodes |
| `StateCodec.NothingExtendsAnEncoding` | store/state.go:114-168 | No encoding is a proper prefix or extension of another byte string that decodes |
| `StateCodec.PrefixRoundTrip` | store/state.go:114-168 | Decoding an encoding followed by anything gives the state and leaves the rest |
| `StateCodec.PrefixExact` | store/state.go:114-168 | Whatever decodes off the front of some bytes was storable, and the bytes consumed are its encoding |
| `StateCodec.EncodingIsShort` | store/state.go:80-109 | Every encoding fits a record and starts with the byte 1, so a save never refuses one that fits the sector |
| `StateCodec.RecordLayout` | store/state.go:80-109 | Where each field lies: version 1, the name behind its length, colour, brightness, mute, boot count, sleep total, learned maximum, the number of peers, the peers |
| `StateCodec.EncodableExactly` | store/state.go:80-109 | A state can be stored exactly if it has 16 peers at most and all names are text of 32 bytes at most |
| `StateCodec.PeersRoundTrip` | store/state.go:101-107 | The peer list decodes to itself with whatever follows left over |
| `StateCodec.KeyTellsChoices` | emulator/state.go:204-227 | Two states have equal keys exactly when they differ only in sleep total, learned maximum and the positions and times of peers |
| `StateCodec.Unmarshal` | store/state.go:114-168 | The cursor decoder accepts exactly the byte strings the specification does, with the same state |
| `StateCodec.Marshal` | store/state.go:80-109 | The appending encoder gives the specification encoding, or refuses exactly the states that do not fit a record |
| `StateCodec.ReadPeers` | store/state.go:139-161 | The loop over the peers reads what the specification reads from wherever the cursor stands |
| `StateCodec.Reader.NextBytes` | store/state.go:223-230 | Takes n bytes if that many are left, otherwise nothing, and never reads past the end |
| `StateCodec.Reader.NextName` | store/state.go:258-268 | Takes a length-prefixed name only if it is whole, at most 32 bytes and valid UTF-8 |
| `Utf8.Sanitized` | store/state.go:175-192 | Always at most 32 bytes of valid UTF-8 |
| `Utf8.SanitizeIsIdentityOnStorable` | store/state.go:175-192 | The identity on exactly the storable names, hence idempotent |
| `Utf8.ShortenedIsLongest` | store/state.go:175-192 | The shortened name is the longest text prefix that fits |
| `Utf8.SanitizeName` | store/state.go:175-192 | The shortening loop gives the specified name |
| `Utf8.LastRuneSize` | store/state.go:186-190 | Stepping back over continuation bytes finds the size of the last sequence of a text |
| `Utf8.TextIsScalars` | store/state.go:175-192 | Bytes count as text if and only if they are the RFC 3629 encoding of some sequence of code points other than surrogates |
| `Utf8.RuneIsScalar` | store/state.go:175-192 | Every sequence taken is the encoding of one code point: no overlong forms, no surrogates, nothing past U+10FFFF |
| `Utf8.ScalarIsRune` | store/state.go:175-192 | The encoding of every code point is taken as one sequence |
| `Settings.WritesExactlyOnChange` | cmd/totememu/settings/settings.go:165-199 | While the key is in step, flash is written exactly when a chosen setting differs from the record the journal would load |
| `Settings.StepKeepsInStep` | cmd/totememu/settings/settings.go:165-261 | A save, a factory reset or a restart leaves the key in step if and only if it did not clear a readable record and then fail to write |
| `Settings.RunStaysInStep` | cmd/totememu/settings/settings.go:60-261 | Over every run without such a loss the kept key is that of the record the journal would load |
| `Settings.SaveKeepsInStep` | cmd/totememu/settings/settings.go:165-199 | One save leaves the key in step if and only if it did not clear a readable record and then fail to write |
| `Settings.LostSettingsAreNotRewritten` | cmd/totememu/settings/settings.go:183-196 | After a save that cleared the sector and then failed to write, the settings the key remembers are never written again although nothing would load |
| `Settings.LossIsReached` | cmd/totememu/settings/settings.go:165-199 | A run into that from an erased sector: save, restart and read back, then save a changed choice that does not fit behind it, with an erase that works and a write that fails |
| `Settings.SavedComesBack` | cmd/totememu/settings/settings.go:60-199 | A save of changed settings that completes on a sector just opened, and the sector opened again: exactly those settings come back, with the boot count one more, modulo 2^32 |
| `Settings.ForgottenStaysForgotten` | cmd/totememu/settings/settings.go:60-261 | After a factory reset whose write completes, the next boot is the first of a device with the same name, colour, brightness and sound, no bonds, no sleep total and no learned maximum |
| `Settings.NothingComesBack` | cmd/totememu/settings/settings.go:60-107 | A boot has no settings exactly if the journal loads nothing or bytes that do not decode |
| `Settings.Store.Open` | cmd/totememu/settings/settings.go:60-107 | Boots with the zero state unless the sector loads a record of this version; then the key is its key and the state is it with the boot count one more |
| `Settings.Store.Save` | cmd/totememu/settings/settings.go:165-199 | Writes exactly when the key changed; the store, its journal and the flash end as the specification says |
| `Settings.Store.Forget` | cmd/totememu/settings/settings.go:237-261 | Writes what the factory reset leaves, without bonds, boot count, sleep total or learned maximum, whatever the key, and keeps its key exactly if the write completed |
| `Settings.Store.Reopen` | cmd/totememu/settings/settings.go:265-287 | Does nothing to an open store; otherwise reads the sector, gives the node the record, and saves what the node then is exactly if that differs in a choice |
| `Ring.EveryInterleaving` | cmd/totememu/ring.h:39-75 | In every interleaving of single memory accesses, through 32-bit wrap: frames popped are the accepted ones in order, head - tail is at most 16, and accepted + dropped + refused = offered |
| `Ring.NeverOverwrites` | cmd/totememu/ring.h:48-53 | The slot being written is never one being copied out or still waiting |
| `Ring.DropsOnlyWhenFull` | cmd/totememu/ring.h:43-47 | A frame is dropped only while 16 wait at the moment tail was read, and a pop gives up only when none waits |
| `Ring.WaitingIsUnpopped` | cmd/totememu/ring.h:39-75 | The slots between tail and head hold exactly the frames accepted and not yet popped |
| `Ring.WriteCellKeeps` | cmd/totememu/ring.h:48-53 | Writing one cell of the slot keeps everything the other side may read |
| `Ring.PublishKeeps` | cmd/totememu/ring.h:54-56 | Publishing head makes exactly the frame just written visible |
| `Ring.ConsumeKeeps` | cmd/totememu/ring.h:59-75 | Each access of the pop keeps the invariant |
| `Ring.PushGoesThrough` | cmd/totememu/ring.h:39-56 | The steps of a push with nothing in between: what is no ESP-NOW payload of 1 to 250 bytes is refused, a frame goes behind those waiting if fewer than 16 are, and is dropped and counted if 16 are |
| `Ring.PopGoesThrough` | cmd/totememu/ring.h:59-75 | The steps of a pop with nothing in between take the oldest frame waiting, or change nothing if none waits |
| `Ring.Buffer.Push` | cmd/totememu/ring.h:39-56 | Refuses a frame that is no ESP-NOW payload, drops one when 16 wait, otherwise appends it to those waiting |
| `Ring.Buffer.Pop` | cmd/totememu/ring.h:59-75 | Takes the oldest waiting frame, or nothing when none waits |
| `WriteQueue.EverySchedule` | client/client.go:189-439 | Every schedule of callers, receiver and writer keeps: first in first out, every caller queued once, an ack pending exactly when one waits, no second answer, no lost wake-up |
| `WriteQueue.WritesFollowTheQueue` | client/client.go:388-436 | Link writes are a prefix of what was queued, in order, each request at most once |
| `WriteQueue.OneOutcome` | client/client.go:358-375 | An outcome once sent or taken never changes, and while the link holds a caller gets the writer's |
| `WriteQueue.ResultsAreTrue` | client/client.go:358-436 | In every schedule, each answer says what the link did: Written if and only if it took the frame, Failed if and only if it was asked and refused it, Disconnected if and only if it was never asked; and a caller holds its answer, or the link dropped and it was told so |
| `WriteQueue.WriterKeepsResults` | client/client.go:388-439 | Every step of the writer keeps that, with the frame it has just written included |
| `WriteQueue.SettlesOnce` | client/client.go:426-436 | What the writer answers next was never answered before |
| `WriteQueue.UnansweredIsHeld` | client/client.go:388-439 | A call without an answer is in the writer's hands or in the queue |
| `WriteQueue.AcksKept` | client/client.go:189-214 | A key is in pending exactly when exactly one unwritten ack for it is queued, kept by every step |
| `WriteQueue.OrderThereKept` | client/client.go:388-436 | What has reached the device and what may yet is in queue order, kept by every step, failed writes included |
| `WriteQueue.WakeKept` | client/client.go:377-382 | A queue that is not empty always has a token, someone about to signal, or a writer still draining |
| `WriteQueue.WorkGetsDone` | client/client.go:388-439 | With work queued, a wake-up is on its way or the next step of the writer leaves less to do |
| `WriteQueue.EveryCallIsAnswered` | client/client.go:388-439 | Once the writer is called, in as many of its own steps as there is work, three more for a token, every caller has its result, whatever the link answers |
| `WriteQueue.DroppedIsAnswered` | client/client.go:391-405 | Once the writer sees that the link dropped, one step for each call queued answers every caller: with what it had, or that the link dropped |
| `WriteQueue.CallersLeave` | client/client.go:358-375 | A waiting caller takes its answer once there is one, leaves once the link has dropped, and otherwise goes on waiting |
| `WriteQueue.SignalsOnce` | client/client.go:377-382 | Whoever queued something leaves a token, once |
| `WriteQueue.HandledRecordHasAck` | client/client.go:189-214 | After any record is handled exactly one unwritten ack for it is in the queue |
| `WriteQueue.AckClearsOnlyAnswered` | client/clienttest/totem.go:167-194 | Of the frames that reach the device, a Static Data ack that clears a request there answers a record handled after that request was queued; failed writes do not arrive, and Ready begins a new session |
| `WriteQueue.HeldAfter` | client/clienttest/totem.go:167-194 | What one more frame makes of the request a device holds: (1, 1) is one, any other frame of category 1 clears it, so does a Ready that asks for a reset, and no other frame touches it |
| `WriteQueue.RepeatedRecordsAreAcked` | client/client.go:170-204 | Exactly the records the device repeats are acked, each by its own frame: (1, 2) by (1, 0), a WiFi list by (2, 0), (6, 7) by (6, 8), told by header alone |
| `WriteQueue.RecordQueuesItsAck` | client/client.go:204-214 | A record whose ack is not waiting puts it behind everything queued and wakes the writer once; one whose ack is waiting leaves the queue alone |
| `WriteQueue.Session.LegacyAck` | client/client.go:189-214 | The records acknowledged are told by header alone; the fields end as that step of the schedule |
| `WriteQueue.Session.Enqueue` | client/client.go:358-369 | A caller's request joins the queue as that step of the schedule |
| `WriteQueue.Session.Wake` | client/client.go:377-382 | The one-slot token is set without blocking |
| `WriteQueue.Session.TakeNext` | client/client.go:408-428 | The writer takes the front and clears an ack's mark as it leaves |
| `WriteQueue.Session.DropAll` | client/client.go:391-405 | When the link drops the queue and its marks go together, and all that was queued is left to answer |
| `TxWindow.EverySchedule` | client/client.go:216-351 | Every schedule of any number of threads keeps the window's invariant: ownership, lock, waiters, channels and batches |
| `TxWindow.NoneOnOwnedKept` | client/client.go:286-318 | Whenever the app owns the window no waiter is registered |
| `TxWindow.OwnedWindowWakesEveryone` | client/client.go:286-318 | When the app owns the window every sleeper is woken or on the list of a thread about to wake it |
| `TxWindow.NobodyLostKept` | client/client.go:286-326 | Every sleeper is registered, woken or about to be, in every schedule, time-outs included |
| `TxWindow.NeverClosedTwice` | client/client.go:286-295 | No waiter's channel is ever closed twice |
| `TxWindow.FailedGrantGivesBack` | client/client.go:266-295 | A grant whose write failed waits only for its own next step to take the window back, whatever other threads do; then every sleeper registered by that time has its channel closed after as many more of its steps as there were waiters |
| `TxWindow.TakingTheWindowWakesEveryone` | client/client.go:286-295 | Taking the window, on a handoff or after a failed grant, closes the channel of every registered sleeper within as many steps of that thread as there are waiters, in any schedule of the others |
| `TxWindow.ListGetsClosed` | client/client.go:286-295 | A thread closing channels has closed all on its list after that many steps of its own, in any schedule |
| `TxWindow.WokenGoesOn` | client/client.go:307-317 | A sleeper whose channel is closed goes on when it is scheduled |
| `TxWindow.OneAtATime` | client/client.go:330-351 | A batch in progress excludes every other batch and every grant |
| `TxWindow.OneWindow` | client/client.go:330-351 | The frames of a batch during which no Start ran are written in order, unbroken, in one window the app owns |
| `TxWindow.BatchIsWhole` | client/client.go:330-351 | In every schedule of any number of threads, of a batch that is over the link has exactly the frames its Send was asked for, one behind the other from the first, with all others to go, to the last; or, if a write of it failed, exactly those before the failed one |
| `TxWindow.NotedKept` | client/client.go:330-351 | Every step keeps that, for the batch under way and for what a sleeping or waiting Send is still to write |
| `TxWindow.SendGoesThrough` | client/client.go:330-351 | Send of n frames in an owned window, while nobody else sends or grants, puts those n frames on the link as one batch and frees the lock |
| `TxWindow.GrantGoesThrough` | client/client.go:266-285 | A grant while nobody sends puts one frame on the link, and the window is the device's |
| `TxWindow.AwaitSleepsUnlessOwned` | client/client.go:299-307 | A wait for the window returns at once if the app owns it, and otherwise sleeps on a channel of its own that is registered |
| `TxWindow.SleepsUntilClosed` | client/client.go:307-328 | A sleeper goes on only if its channel is closed; one that gives up drops its own waiter and no other's, and sends nothing |
| `TxWindow.OnlyStartDisturbs` | client/client.go:251-262 | Only Start taken during a batch gives the window away under it, and it always does |
| `TxWindow.StartBreaksBatch` | client/client.go:251-262 | A run in which Start makes a batch's frame go out in a window the app does not own |
| `TxWindow.LockingKept` | client/client.go:266-351 | The batch lock is held by the one thread that acts as its holder |
| `LocateFrame.ParseEncode` | mesh/locate.go:44-84 | parse(encode(l)) = l for every locate frame |
| `LocateFrame.FrameLayout` | mesh/locate.go:44-68 | Where each field of the 45 bytes lies |
| `LocateFrame.EncodeParse` | mesh/locate.go:44-84 | encode(parse(b)) is the frame's own 45 bytes if and only if its two flag bytes are 0 or 1 |
| `LocateFrame.PatchDecodes` | emulator/node.go:1536-1539 | The relay's in-place patch of bytes 29 and 35-42 decodes to the same frame with our position as last hop and one more hop |
| `LocateFrame.PatchIsReencoding` | emulator/node.go:1536-1539 | Patching equals decode, change, re-encode, trailing bytes kept, if and only if the flag bytes are 0 or 1 |
| `LocateFrame.Patch` | emulator/node.go:1536-1539 | Nothing but the hop byte and the last hop's eight bytes changes |
| `LocateFrame.Parse` | mesh/locate.go:72-84 | A frame parses exactly if its header is a locate frame's and it has 45 bytes or more |
| `MeshNode.OutlivesFrame` | emulator/node.go:1549-1551 | A UID is kept past the frame's expiry if and only if that is less than 400 s ahead |
| `MeshNode.OwnFramesAreRemembered` | emulator/node.go:1371-1390 | Expiries this node stamps are positive, at most 120 s ahead, and kept long enough exactly for clocks from 398 s before the epoch on |
| `MeshNode.RememberIsBounded` | emulator/node.go:1549-1570 | The duplicate table never holds more than 512 entries |
| `MeshNode.RememberMakesRoom` | emulator/node.go:1552-1571 | Below 512 entries nothing is forgotten; at 512 exactly the dead ones; at 512 live ones exactly the victim |
| `MeshNode.RelaysOnlyIf` | emulator/node.go:1411-1541 | A frame is relayed only if new here, with a fix and a clock, unexpired, with hops left and not too close; one relay at most, of the patched frame |
| `MeshNode.RelaysExactly` | emulator/node.go:1411-1541 | On the fields of node and frame: a frame is carried on if and only if it is from an owned Totem or carrying for strangers is on, the node is on with fix and clock, the UID is new, the origin is another, its strength, hops, expiry and distance allow it, and either the origin is bonded, asks for a reply and under 20 requests were spent, or it is a stranger's, to be carried, within its kind's budget; it is then the last frame sent, patched with this node's position, and counted |
| `MeshNode.FromPeerCarries` | emulator/node.go:1434-1473 | The same for a bonded peer's frame |
| `MeshNode.StrangerCarries` | emulator/node.go:1491-1510 | The same for a stranger's |
| `MeshNode.RelayDecodes` | emulator/node.go:1514-1541 | A relayed frame is the one heard, one hop on; the hop byte has not wrapped and the hops left stay positive and strictly fall |
| `MeshNode.TableAfter` | emulator/node.go:1411-1420 | The duplicate table changes only for a frame new here and then records its UID, whatever else became of it |
| `MeshNode.SentOrigins` | emulator/node.go:1434-1449 | With RelayUnowned off every locate frame sent has this node or a bonded peer as origin |
| `MeshNode.WithinBudget` | emulator/node.go:1470-1506 | Between radio windows at most 20 requests and 10 strangers' replies are relayed, and every relay is counted |
| `MeshNode.AnswersAreSpaced` | emulator/node.go:1450-1469 | Only a bonded peer's request is answered, and at least a minute after the answer before |
| `MeshNode.AnswersExactly` | emulator/node.go:1393-1469 | A frame is answered if and only if it is taken up, is a bonded peer's request, that peer is only known over the mesh or not heard for a minute, and the last answer is a minute old; the answer goes out first and decodes to this node's position, a reply of its own UID, hops 0 of 99 and an expiry two minutes ahead inside the field |
| `MeshNode.PeersAreNoted` | emulator/node.go:1450-1461 | A bonded peer whose frame is taken up is noted as heard over the mesh, now, and where it says it is if that is a position; nothing else changes what is known of peers |
| `MeshNode.OwnFrameComesBack` | emulator/node.go:1421-1430 | This node's own frame heard again sends nothing, and ends the wait for the answer or the request with its UID and no other |
| `MeshNode.KeptUntil` | emulator/node.go:1549-1571 | The UID of a frame looked at is kept to 15 s past its expiry, but no less than 15 s and no more than 400 s from now |
| `MeshNode.ReadingComesFirst` | emulator/node.go:550-632 | What the reading before a frame lacks, fix, clock or power, the frame is not taken up for; a node it switches off sends nothing and forgets the answers it owes |
| `MeshNode.UnheededChangesNothing` | emulator/node.go:550-571 | A frame from no owned Totem, unless it is a locate frame and strangers are carried for, or to a node that is off, changes nothing at all |
| `MeshNode.ReadingChanges` | emulator/node.go:572-590 | A reading changes only what the sensors say, and without power the answers owed |
| `MeshStation.Station.Sweep` | emulator/node.go:1552-1558 | The sweep leaves exactly the live entries |
| `MeshStation.Station.FindOldest` | emulator/node.go:1559-1567 | The entry evicted is one with the earliest deadline |
| `MeshStation.Station.AddRecent` | emulator/node.go:1549-1570 | Records the UID with its deadline, sweeping and evicting only at 512 entries |
| `MeshStation.Station.TryRelay` | emulator/node.go:1514-1541 | Sends the patched frame exactly when the rules let it through |
| `MeshStation.Station.CarryForStranger` | emulator/node.go:1491-1510 | Requests and replies of strangers are shed by their own budgets |
| `MeshStation.Station.HearBonded` | emulator/node.go:1450-1472 | A bonded peer is noted, its request answered at most once a minute and carried on within the budget |
| `MeshStation.Station.OnLocate` | emulator/node.go:1411-1473 | The node and what it sends end as the specification says for some choice of equally old entries |
| `MeshStation.Station.Receive` | emulator/node.go:550-615 | Only owned senders are heeded, or locate frames when carrying for strangers, and only while on; the reading before the frame may change fix and clock or switch the node off |
| `Flood.OneRelayPerNode` | emulator/node.go:1411-1570 | In a network of any size, over any run, a flood is relayed by each node at most once, so by at most as many relays as there are nodes |
| `Flood.HopsAreBounded` | emulator/node.go:1514-1541 | Every frame on the air went through different nodes only, gained one hop at each, no more hops than nodes, and stays under its limit |
| `Flood.EveryRun` | emulator/node.go:1411-1570 | Over every fair run each relay on record is settled where it happened, none is repeated, and every frame on the air is traced to the nodes that relayed it |
| `Flood.HeardGoesOn` | emulator/node.go:1411-1541 | In the network a frame on the air goes on it again, patched, with the hearing node at the end of its path, if and only if that node takes it up, may send it on and has room |
| `Flood.InjectedIsAired` | emulator/node.go:1411-1541 | A locate frame put on the air is there to be heard, with an empty path |
| `Flood.ReadingIsElsewhere` | emulator/node.go:569-583 | The reading before a frame is one of the events a run allows between frames, exactly while it leaves the clock offset alone |
| `Flood.DoneIsNotRelayed` | emulator/node.go:1520-1522 | A flood that has expired here, or whose UID is kept until it has, is not relayed |
| `Flood.DoneAfterRecord` | emulator/node.go:1549-1570 | Recording another UID never forgets a flood that could still be relayed |
| `Flood.ForgottenTooSoon` | emulator/node.go:1549-1551 | Expiring 400 s ahead or later, a frame just relayed would be relayed again |
| `Flood.ForgetsOnlyTheVictim` | emulator/node.go:1549-1570 | Recording another frame forgets a live UID if and only if 512 are live and this is the one evicted |
| `Flood.EvictedTooSoon` | emulator/node.go:1559-1568 | With the table full of live UIDs, the frame with the oldest was refused as heard before and would be relayed again at once |
| `Flood.ClockSetBack` | emulator/node.go:1520-1551 | An expired flood whose UID is no longer kept would be relayed again if and only if the clock is set back far enough to make it unexpired |
| `Timers.PollLeavesOneWindow` | emulator/node.go:468-493 | From power-up, after any events and a poll: nothing is due, and while on exactly one window is pending, less than 5.1 s away, and one mesh tick exactly if the clock is set |
| `Timers.EveryRun` | emulator/node.go:848-992 | The chains stay single over every run of polls, frames, clock changes, pairing and power cycles |
| `Timers.RunSchedulesLater` | emulator/node.go:906-992 | Whatever a job schedules is strictly later than now |
| `Timers.FewerDue` | emulator/node.go:471-484 | Each job run leaves fewer due, so the poll loop ends |
| `Timers.NothingLeftDue` | emulator/node.go:471-485 | When the loop ends no job is due |
| `Timers.WindowAfterBursts` | emulator/node.go:963-991 | A window without a clock starts only when no burst of the one before is pending |
| `Timers.RunFirstKeeps` | emulator/node.go:954-992 | Running any job leaves one window, one tick exactly with a clock, and at most one burst |
| `Timers.StartAlignedKeeps` | emulator/node.go:848-859 | Moving to wall-clock slots replaces every chain by one window and one tick, and does nothing while off |
| `Timers.PowerOnKeeps` | emulator/device.go:95-118 | Power-up arms one window, and a tick exactly with a clock |
| `Timers.PowerOffKeeps` | emulator/device.go:61-92 | Power-down leaves no window, no tick and no burst |
| `Timers.SetClockKeeps` | emulator/node.go:1996-2010 | Setting the clock by hand keeps the chains single, and so does the reading after it |
| `Timers.ReadKeeps` | emulator/node.go:638-787 | A reading keeps the chains single, whether it locks the clock, cuts the power, or both |
| `Timers.BootIsSane` | emulator/node.go:407-420 | A new node has one window unless its first reading switched it off |
| `Timers.WindowsAreAligned` | emulator/node.go:915-951 | With literals: a window sends 75 ms after a slot, which with a clock is the first multiple of 4 s of wall-clock time after now while upright, and of 1 s while a Totem lies flat; without one it is 5 s after the last window, or now if those are over |
| `Timers.WindowsRepeat` | emulator/node.go:954-996 | A window that runs at its time queues the next one exactly 4 s or 1 s on with a clock and 5 s on without, and with a clock nothing else |
| `Timers.TicksAreAligned` | emulator/node.go:906-913 | The mesh tick is at the first moment after now that is 200 ms before a multiple of 4 s of wall-clock time |
| `Timers.BurstsAreOnPhase` | emulator/node.go:985-990 | The next burst is when the milliseconds since boot are at the phase's tenth of the second, within a second |
| `Timers.BurstsGoOn` | emulator/node.go:978-994 | A burst moves the phase on and leads to one more burst while fewer than three have been and the next is within 2.5 s of the window |
| `Timers.ClockIsAdopted` | emulator/node.go:863-902 | A peer's clock is taken exactly by a node without one, up for 30 s, if it is after 2020 began and fits a signed 32-bit second; it is then right to the nanosecond and both chains start afresh |
| `Timers.FixSetsClock` | emulator/node.go:752-773 | A usable fix sets the clock every time and starts the chains afresh the first time only; another changes nothing of either |
| `Timers.ManualClockIsKept` | emulator/node.go:1996-2011 | A clock set by hand is refused exactly outside those bounds and counts as a receiver's from then on |
| `Timers.PairingIsArmed` | emulator/node.go:1099-1137 | Pairing arms its end six seconds on and its first turn 50 to 99 ms on, unless open, off or full |
| `Timers.PairingCloses` | emulator/node.go:1126-1145 | It closes at its end and not before, and takes another turn every 50 to 99 ms until then |
| `Timers.BootsClockless` | emulator/node.go:295-420 | A device powers up on, without a clock and not pairing, with one window 75 ms away and nothing else queued |
| `Timers.FramesAreActedOn` | emulator/node.go:550-632 | A frame heard by a device that is on and stays on is acted on after the reading |
| `Timers.NothingAfterPowerDown` | emulator/node.go:566-590 | One heard by a device that is off, or that the reading switches off, is not, and switching off leaves no job |
| `Timers.PowerOffLeavesNothing` | emulator/device.go:61-93 | Powering down leaves no job and no pairing window, and a device that is off as it is |
| `Timers.First` | emulator/node.go:471-479 | The job run next is a due one that no due job comes before by time and then by number |
| `TimerDevice.Device.FindFirst` | emulator/node.go:472-477 | The scan finds that job |
| `TimerDevice.Device.RunJobs` | emulator/node.go:468-486 | The loop runs every due job, those they schedule included, and ends with none due |
| `TimerDevice.Device.ScheduleWindow` | emulator/node.go:937-952 | The next window is on the wall-clock slot after now with a clock, and 5 s after the last without, 75 ms late |
| `TimerDevice.Device.DoWindow` | emulator/node.go:954-992 | A window schedules its successor, and without a clock its bursts first |
| `TimerDevice.Device.KeepOnce` | emulator/node.go:856-856 | Exactly the jobs that do not repeat stay, in order |
| `TimerDevice.Device.SwitchOn` | emulator/device.go:95-118 | Arms only what is missing and keeps the chains single |
| `Bonds.NeverMoreThanNine` | emulator/node.go:1099-1361 | Over any run the order lists exactly the peers, each once, all owned, and never more than nine |
| `Bonds.EveryRun` | emulator/node.go:1099-1361 | Every run keeps the table listed and owned, the limits, and the open window's memory of whom it registered |
| `Bonds.OnlyHandshakePassesEight` | emulator/node.go:1320-1361 | The count passes eight if and only if the event is a bond frame, at the bonding strength, from an owned Totem that is no peer, to a device that is on with a window open, nobody chosen and eight bonded |
| `Bonds.NinthBond` | emulator/node.go:1265-1277 | A run to nine from a new device: seven restored, a window, a status frame from the eighth, a bond ack from the ninth |
| `Bonds.UnconfirmedIsRolledBack` | emulator/node.go:1147-1159 | Whoever a window registered without its ack coming is in the table when it closes if and only if a finished group closes it and lists that owned Totem with fewer than eight others to bond to before it |
| `Bonds.FinishedGroupBonds` | emulator/node.go:1855-1902 | A finished group bonds to exactly the owned other members with fewer than eight such before them in its list |
| `Bonds.ShortListsAreEarly` | emulator/node.go:1883-1897 | In a list of no more than eight, those are all the owned other members |
| `Bonds.GroupKeepsUnconfirmed` | emulator/node.go:1855-1902 | A run from a new device that ends with an unconfirmed bond kept: window, invitation, registration, and the group finished with it in the list |
| `Bonds.OnlyItsAckConfirms` | emulator/node.go:1350-1359 | Only a bond ack from the one registered, in the window, at the bonding strength, confirms |
| `Bonds.StopRollsBack` | emulator/node.go:1147-1159 | Closing the window removes the unconfirmed one and leaves a confirmed table as it was |
| `Bonds.PairOpensWindow` | emulator/node.go:1099-1124 | A window opens for six seconds with nobody chosen exactly on a device that is on, has none open and under eight bonds |
| `Bonds.TimerClosesWindow` | emulator/node.go:1138-1159 | Its timer closes it at its end and not before; whoever it registered stays exactly if its ack came |
| `Bonds.PowerClosesWindow` | emulator/device.go:61-93 | Powering down closes it the same way |
| `Bonds.StrangerIsTaken` | emulator/node.go:1320-1368 | The first Totem heard in a window that is no peer is bonded to there and then, and confirmed if the frame is an ack |
| `Bonds.PeerIsTaken` | emulator/node.go:1320-1368 | The first one heard that is a peer closes the window if it was heard under six seconds before, and otherwise is chosen without being registered |
| `Bonds.ChosenIsConfirmed` | emulator/node.go:1320-1368 | Once somebody is chosen, a loud enough ack of the one registered confirms it, and nobody else is taken in |
| `Bonds.BondedIsConfirmed` | emulator/node.go:1320-1368 | A bond frame reports a bond exactly when it is the ack of the one registered, and ends there exactly when there is no window, it is too faint, or it closes the window |
| `Bonds.BroughtInUnheard` | emulator/node.go:1161-1170 | Whom a record or a finished group brings in counts as not heard yet |
| `Bonds.NewIsUnbonded` | emulator/node.go:295-420 | A new device is on, with no bonds, no window and no group |
| `Bonds.BondFrameIgnored` | emulator/node.go:1224-1248 | A bond frame too faint changes nothing, nor one heard with no window open by a device that does not pair by itself |
| `Bonds.PairsByItself` | emulator/node.go:1224-1240 | A device that pairs by itself answers a loud enough bond frame as if a window had been opened just before it, unless it has eight bonds |
| `Bonds.OtherFrames` | emulator/node.go:1248-1290 | An unbond notice changes nothing, a peer's frame is noted, and a Totem that is no peer is bonded to exactly if it sends its status to this device alone and there is room |
| `Bonds.GroupIsJoined` | emulator/node.go:1823-1911 | A group is joined only in a pairing window by a device its list names; its timeout moves, and it is left, only by frames of its own number |
| `Bonds.PeersAreDeleted` | emulator/node.go:1172-1210 | The console takes out one peer of a device that is on, a reset all of them and the window |
| `Bonds.FramesDoNotClose` | emulator/node.go:1320-1361 | Once somebody is registered no peer frame closes the window |
| `Bonds.BondsSurviveRestart` | emulator/node.go:1939-1957 | Restoring the saved order gives it back exactly if it has at most eight bonds; a ninth is lost |
| `Bonds.RestoreIsPrefix` | emulator/state.go:110-118 | A saved list restores to its first eight, in order |
| `Bonds.GroupKeeps` | emulator/node.go:1823-1905 | A finished group leaves at most eight bonds, all owned and among its members; any other group frame leaves the table alone |
| `BondTable.Table.Delete` | emulator/node.go:1172-1177 | The peer goes from the map and from the order, which is otherwise unchanged |
| `BondTable.Table.Forget` | emulator/node.go:1182-1191 | Every peer goes |
| `BondTable.Table.StartPairing` | emulator/node.go:1099-1122 | A window opens unless off, already open or full |
| `BondTable.Table.StopPairing` | emulator/node.go:1147-1159 | The unconfirmed peer goes with the window |
| `BondTable.Table.AddBond` | emulator/node.go:1939-1957 | A saved bond comes back only if owned and there is room; the result says whether the peer is bonded |
| `BondTable.Table.OnBond` | emulator/node.go:1320-1361 | A bond frame chooses, registers, re-bonds or confirms as the specification says |
| `BondTable.Table.OnPeer` | emulator/node.go:1224-1316 | A peer frame, automatic pairing and restoring included, keeps the invariant |
| `BondTable.Table.FinalizeGroup` | emulator/node.go:1855-1902 | The group's owned members replace the bonds, up to eight |
| `Gestures.EveryPressIsProper` | emulator/input.go:138-247 | Over any events, one press makes at most one hold and one long hold, never long hold first, never a tap once held; the tap count stays at most 4 |
| `Gestures.LongHoldFirst` | emulator/input.go:185-206 | The order of the two hold times is what that needs: reversed, a press reports its long hold first |
| `Gestures.TapGestureCounts` | emulator/input.go:207-218 | A tap gesture names how many presses it was made of, three or more being triple, and each is used once |
| `Gestures.PollsChangeNothingElse` | emulator/input.go:185-223 | A poll with nothing to report changes nothing; one that reports taps leaves none waiting |
| `Gestures.ClicksMakeGesture` | emulator/input.go:138-223 | Any number of clean clicks on an idle input are reported 400 ms after the last and not before: one as a single tap, two as a double tap, more as a triple tap |
| `Gestures.ReleaseCounts` | emulator/input.go:157-182 | A press let go before it is held counts as one tap more exactly if it lasted 30 ms; one that was held drops the taps before it |
| `Gestures.PressIsTaken` | emulator/input.go:138-154 | A press is taken exactly if the input is not blocked, no finger is down and the last edge is 30 ms old |
| `Gestures.BlockedInput` | emulator/input.go:244-250 | No press is taken in the first three seconds nor while blocked, and blocking drops what was under way |
| `Gestures.NextIsWhenPollReports` | emulator/input.go:226-240 | A poll reports something if and only if next is set and has come |
| `Gestures.WalkGoesOn` | emulator/input.go:353-361 | Polling at next always leaves a held press fewer gestures to make |
| `Gestures.Input.HoldFor` | emulator/input.go:319-365 | The walk ends; it reports the hold and the long hold due by the end, each at its own time, or those up to the poll after which the input was cleared, and the finger is up |
| `Gestures.Input.PressDown` | emulator/input.go:138-145 | A press is taken exactly when unblocked, up and past the edge lockout |
| `Gestures.Input.LiftUp` | emulator/input.go:157-180 | A release always ends the press; it counts as a tap unless held or a bounce |
| `Gestures.Input.PollNow` | emulator/input.go:185-219 | The gestures due now, and the state after them |
| `BatteryGauge.HigherReadsHigher` | emulator/power.go:147-212 | For every learned maximum the percentage is within 0 to 100 and never falls as the voltage rises, infinities included |
| `BatteryGauge.LowerMaximumReadsHigher` | emulator/power.go:147-212 | For all voltages a and b with b at most a as learned maximum: no reading falls from a to b if and only if b rounds to more than 3190 mV, or a rounds to 4119 mV or more, or a rounds to 3190 mV or less |
| `BatteryGauge.LowerOnTable` | emulator/power.go:173-178 | The same on the table in millivolts, for maxima from its flat end up |
| `BatteryGauge.FullAtCeiling` | emulator/power.go:147-212 | For every voltage, read against itself as the learned ceiling: 100 if it rounds to more than 3190 mV, else 0 |
| `BatteryGauge.FloorDivIsFloor` | emulator/power.go:120-126 | floorDiv is the mathematical floor of the quotient for all signs |
| `BatteryGauge.LevelMonotone` | emulator/power.go:197-210 | Interpolation along any descending table never falls as the voltage rises |
| `BatteryGauge.LevelBounds` | emulator/power.go:197-210 | Interpolation along any descending table stays within the levels of its ends |
| `BatteryGauge.LevelAtRow` | emulator/power.go:197-210 | Interpolation along any descending table reads each row's own level at that row |
| `BatteryGauge.PctOfIsNearest` | emulator/power.go:216-216 | The percentage is the nearest one to the level, halves up |
| `BatteryGauge.CurveDescends` | emulator/power.go:87-103 | The 58-row table falls strictly in voltage and level from 4120 mV full to 3190 mV empty |
| `BatteryGauge.BattPctFor` | emulator/power.go:147-212 | The gauge in 32-bit arithmetic: no operation overflows and the result is the specified percentage |
| `BatteryGauge.Interpolate` | emulator/power.go:197-210 | The loop over the table finds the level of the segment the voltage is in |
| `PowerModes.ModeAgreesWithPower` | emulator/power.go:412-442 | Over any run the mode says off exactly when the device is off |
| `PowerModes.CutsOffExactly` | emulator/power.go:412-442 | A reading powers the device down exactly for a fitted, uncharged cell above 0 and at or below 3.15 V |
| `PowerModes.ModeIsExactly` | emulator/power.go:412-442 | The mode after a reading, exactly: normal on the charger or without a battery to speak of, else off up to 3.15 V, low up to 3.45 V or when the chip says so, eco up to 40 percent |
| `PowerModes.LowerRunsNoHarder` | emulator/power.go:412-442 | Of two readings alike but for the voltage, the lower never leaves the device in a mode that runs harder |
| `PowerModes.UpdateTellsChange` | emulator/power.go:412-442 | An update says whether the mode is another than it was |
| `PowerModes.OnlySwitchingOnWakes` | emulator/device.go:61-121 | Off stays off whatever is read and learns nothing; switching on starts in normal mode with nothing learned |
| `PowerModes.LearnsExactly` | emulator/power.go:310-334 | The peak is the highest voltage from 3.19 to 4.6 V; on the charger it is remembered while it rises, and once it does not the ceiling is exactly 0.04 V under it |
| `PowerModes.CeilingOnlyRises` | emulator/power.go:310-334 | The learned ceiling changes only on the charger after a reading that raised no peak, and only upwards |
| `PowerModes.CeilingWasSeen` | emulator/power.go:310-334 | It is at least 0.04 V under the highest plausible voltage ever read |
| `PowerModes.LearnsEmptyCeiling` | emulator/power.go:310-334 | Two readings of 3.2 V on the charger teach a ceiling of 3.16 V, and a battery at that ceiling reads 0 |
| `PowerModes.LowerCeilingReadsLower` | emulator/power.go:310-334 | A run that learns 3.8 V, forgets it and learns 3.16 V: what read 100 with the first reads at most 99 with the second |
| `PowerModes.Monitor.LearnFrom` | emulator/power.go:310-334 | The peak is tracked always; on the charger it is remembered while it rises and becomes the ceiling less 0.04 V once it does not |
| `PowerModes.Monitor.UpdateMode` | emulator/power.go:412-442 | The mode follows the reading, in the order of precedence of the source |
| `PowerModes.Monitor.ApplyReading` | emulator/device.go:215-247 | A reading keeps mode and power in agreement |
| `Nmea.StreamIsItsSentences` | gnss/nmea.go:127-160 | For every byte stream the reader ends where handling the stream's complete sentences one by one leaves it |
| `Nmea.SplitAnywhere` | gnss/nmea.go:166-177 | However the stream is split into blocks, the end state and the last fix are the same |
| `Nmea.EverySentenceIsCounted` | gnss/nmea.go:127-226 | Every complete sentence that did not overrun is counted exactly once as good, other or bad, and nothing else is |
| `Nmea.CountedOnce` | gnss/nmea.go:180-226 | One sentence raises exactly one of the three counters, by one, and a fix comes only with a good one |
| `Nmea.FixIsExplained` | gnss/nmea.go:268-320 | A fix is on the globe; its figures are those of the last well-formed GGA, with a solution and at most four good sentences old, or the defaults; and none comes while that GGA denies one |
| `Nmea.StreamFixIsExplained` | gnss/nmea.go:127-320 | The same of every fix that any byte completes after any byte stream, with the sentences that stream completed |
| `Nmea.LatestIsLast` | gnss/nmea.go:231-263 | No sentence behind the one taken for the last well-formed GGA is one |
| `Nmea.AlwaysRemembers` | gnss/nmea.go:231-263 | The reader's GGA memory is that of the last well-formed GGA |
| `Nmea.FixFits` | gnss/nmea.go:309-318 | Speed and course of a fix fit the bytes they are sent in |
| `Nmea.GgaFits` | gnss/nmea.go:256-262 | Satellites, accuracy and altitude of a GGA fit the bytes they are sent in |
| `Nmea.Degrees` | gnss/nmea.go:369-402 | A coordinate that is read is within its limit |
| `Nmea.Utc` | gnss/nmea.go:409-443 | A time that is read is a real date and time of day of 2000 to 2099 |
| `NmeaText.SealVerifies` | gnss/nmea.go:329-351 | A body sealed with a star and its checksum is taken, and taken as that body |
| `NmeaText.VerifiedIsSealed` | gnss/nmea.go:329-351 | Nothing else is taken: what is ends in a star and two digits of its own body's exclusive-or |
| `NmeaText.ChecksumCatchesOneByte` | gnss/nmea.go:329-351 | Two bodies that differ in one byte have different checksums, so no single wrong byte goes unnoticed |
| `NmeaText.XorOfOne` | gnss/nmea.go:329-351 | The checksum of nothing is 0 and that of one byte is the byte |
| `NmeaText.SmallHexReads` | gnss/nmea.go:329-351 | Small letters in the two digits of the checksum are read too |
| `NmeaText.SplitIsCutAtCommas` | gnss/nmea.go:186-186 | The fields joined by commas are the body, and no field holds a comma |
| `NmeaText.DecimalReads` | gnss/nmea.go:510-537 | A number with a point is read as what its digits write by position |
| `NmeaText.SignReads` | gnss/nmea.go:510-537 | A minus negates the number, a plus does not, and neither is one alone |
| `NmeaText.NumbersAre` | gnss/nmea.go:510-537 | A field is a number if and only if, behind a sign if it has one, it is digits with at most one point among them and at least one digit |
| `NmeaText.IntegerReads` | gnss/nmea.go:481-487 | An integer field is what its digits write, with its sign, if that fits 64 bits, and otherwise the default |
| `NmeaText.CoordinateReads` | gnss/nmea.go:369-402 | A coordinate is read as its degrees plus a sixtieth of its minutes, negated in the negative hemisphere |
| `NmeaText.CoordinateTakenExactly` | gnss/nmea.go:369-402 | Such a coordinate is taken if and only if its minutes are below sixty, it is within the limit and the hemisphere is one of the two |
| `NmeaText.ReportIsRead` | gnss/nmea.go:127-320 | What a receiver sends is what is read: a sealed RMC with a valid position comes out as a fix at that position, with that date and time, unless a recent GGA denies it |
| `NmeaText.RmcYieldsFix` | gnss/nmea.go:268-320 | An RMC yields a fix if and only if it has ten fields, says A, no GGA of the last four good sentences denies one and both coordinates read; and it is that position, speed, course and time |
| `NmeaText.SealedIs` | gnss/nmea.go:180-226 | A sealed sentence is classified by the three letters behind the talker and has exactly the fields it was put together from |
| `NmeaText.SplitOfJoin` | gnss/nmea.go:186-186 | Fields without commas, joined by commas, are cut into the same fields |
| `NmeaText.UtcReads` | gnss/nmea.go:409-460 | Every date and time of day in digits is read as itself if it is one of the Gregorian calendar, and refused if not |
| `NmeaText.SpeedReads` | gnss/nmea.go:309-318 | Knots are given in km/h to the nearest, up to 127, and as 0 if negative or no number |
| `NmeaText.CourseReads` | gnss/nmea.go:309-318 | A course is given to the nearest degree, north as 0, and as -1 exactly if it is none |
| `NmeaText.GgaReads` | gnss/nmea.go:231-263 | A GGA's satellites, accuracy of 2.5 m per unit of HDOP, altitude and whether it has a solution, from its fields |
| `NmeaText.GgaReplacesFigures` | gnss/nmea.go:231-263 | A GGA without a solution leaves the figures of the last one with a solution, and one with a solution replaces them |
| `NmeaReader.Stream.FeedByte` | gnss/nmea.go:127-160 | One byte into the 164-byte line buffer leaves the state and yields the fix the specification of the reader gives |
| `NmeaReader.Stream.FeedBlock` | gnss/nmea.go:166-177 | A block fed byte by byte ends in the specified state and returns the last fix in it |
| `NmeaReader.Stream.TakeRmc` | gnss/nmea.go:268-320 | An RMC completes a fix or is refused as specified |
| `NmeaReader.Stream.TakeGga` | gnss/nmea.go:231-263 | A GGA is remembered or refused as specified |

## Left out

- CrashSafety.LoadAfterReopen: assumes the checksum and magic hypotheses above and a failed erase without effect, because the code does not keep the promise without them.
- Rescan.SaveMatchesRescan: assumes the same, for the same reason.
- Settings.Store.Reopen: what the node makes of a restored record is an arbitrary function of it, and what Settings.Store.Forget is given is the node's state after its reset.
- CrashSafety.NextKeepsTidy: assumes the reads behind a save work, because after a failed read the code gives the rest of the sector up.
- Flood.OneRelayPerNode: assumes a fixed clock offset, expiries less than 400 s ahead when heard and fewer than 512 live UIDs; the first because a clock change can bring an expired frame back, the others because they are needed.
- Ring.EveryInterleaving: memory is sequentially consistent, which is what the barriers in the source are there for.
- Ring.Buffer.Push: whole pushes and pops with nothing in between; the interleavings are in the step system.
- TxWindow.OneWindow: the write of a frame is one step, and the frames SendNow and Start write meanwhile are not on the modelled wire, because they ignore the window by design.
- WriteQueue.Session.Wake: goroutines and channels are steps of a schedule, not Dafny concurrency.
- StateCodec.Marshal: floats are the 32 bits they travel as.
- MeshNode.RelaysOnlyIf: whether coordinates are a position and whether the last hop is too close are inputs, because distance is trigonometry.
- Timers.EveryRun: what a job sends is not part of the timers; times are integers in nanoseconds, and events come one at a time.
- Bonds.EveryRun: of a peer only what the handshake reads is kept (heard, and when), and which jobs it schedules is in Timers.
- BatteryGauge.HigherReadsHigher: voltages are reals and infinities, without floating-point rounding.
- PowerModes.CeilingOnlyRises: voltages are reals, so the 0.04 V margin is exact.
- Nmea.FixIsExplained: decimals are exact where the source rounds to float64 and float32, and integers are 64 bits wide as on a host.
- Gestures.Input.HoldFor: what a gesture does to the device is reduced to whether it clears the input.
- Flash, radio, I2C and UART drivers, cache gating, partial erases and tears inside a word: hardware below the sector interface.
- Half-float encoding, great-circle distance, headings, the compass dial, position smoothing.
- The codecs of protocol/, mesh/peer.go and mesh/smartgroup.go, console parsing and printing: field layouts and formatting that add only easy members.
- LEDs and animations, over-the-air updates, simulation, the light-sleep account, the charger debounce, watchdog blockers, logging and its once-only latches.
- The mesh tick's decision whom to ask for, the repeat of a locate reply, and unicast status frames in a radio window.
- cmd/totemctl, the OS Bluetooth transports, event delivery to the application, hardware/.
- SHA-256 mesh slots, random UIDs and random pairing gaps: arbitrary inputs.
