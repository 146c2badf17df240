# Verification of the key-value store, the kernel and the boot loader

This project models the stateful core of the repository in Dafny and proves what it is relied on
for:

* the flash key-value store (`nimble/host/kv_store/mtb_kvstore.c`): a log of records on two flash
  areas, a table in RAM, garbage collection, and start-up after a power cut at any flash step;
* the FreeRTOS kernel (`nimble/os/freertos`): mutexes with priority inheritance, queues with
  deferred wake-ups, the tick count and the delayed lists, timeouts, software timers, event groups,
  stream and message buffers, and the circular list;
* the boot loader (`nimble/mcu_boot`): the check and the restartable move of an image, and the
  table-driven CRC.

`dafny verify dfyconfig.toml` checks everything.

## How it is built

Code that changes state in place is modelled by classes with the same fields; their methods follow
the branches and loops of the C functions and state the whole new state. What the source promises is
then proved of that state, by invariants that every method or every step keeps.

| modules | content |
|---|---|
| `Arith`, `LittleEndian`, `Sequences` | rounding, byte strings, lists |
| `Crc16`, `CrcTable` | the bitwise and the table-driven CRC |
| `KvDamage` | that a record with one changed byte is refused |
| `KvFormat`, `KvLog`, `KvReplay`, `KvLive`, `KvImage`, `KvIndex` | records, logs, what a replay of an image finds, the table |
| `KvFlash`, `KvStream`, `KvPort` | the flash with every image it passed through; reading and writing through the buffer |
| `KvCompact`, `KvCommit`, `KvGather`, `KvCollect`, `KvOutcome`, `KvLoad` | what collections, appends and start-ups make of an image, finished or cut |
| `KvStore`, `KvRuns`, `KvWrap` | the store itself; whole runs with power cuts; an image the version wrap undoes |
| `Mutexes`, `Inheritance`, `MutexKernel` | a state machine of tasks and mutexes, its accounts, the priority bound, and the code that makes its steps |
| `Takes` | what a take comes to over whole runs, from its call to its return |
| `Outranking`, `SelfTakes` | runs outside the limits of the bound and of an assertion |
| `Wakeups`, `MessageOrder`, `QueueStorage`, `WakeupKernel` | the same for queues and their lock counts; the order of messages over whole runs; the ring they are kept in |
| `Calls` | what a send, receive or peek comes to over whole runs |
| `Ticks`, `Timers` | the clock behind the wrapping tick count; the timer daemon |
| `EventBits`, `Rendezvous` | event groups; the reusable barrier built on them |
| `StreamBuffers`, `Lists`, `ImageMove` | the ring buffer with its two users; the linked list; the boot loader |

## What the model takes as given

* A flash program call and the erasure of one sector each happen whole or not at all; between any two
  the power may fail. Flash calls succeed or the power is lost. Erased flash reads 0x00 or 0xFF, the
  same everywhere.
* Addresses of the store are relative to its start address. An image the store starts from is one
  only the store has written, in any state of completion, or blank. Sizes are bounded so that record
  sizes do not overflow 32 bits (`requires` of `Write` and `Delete`).
* The CRC of a record that was cut short may fit by accident. Where this is excluded, it is by the
  named condition `CrcDistinguishes`; without it `KvCommit.AppendCut` says what is recovered.
* In the kernel, a critical section, a stretch of code with the scheduler suspended, and a switch of
  tasks are steps; interrupts act between steps. Priorities change by inheritance only. No task is
  suspended or deleted and no delay is aborted.
* There are at most 127 tasks (`Wakeups.MAX_TASKS`). The lock counts of a queue are signed bytes that
  count up to the number of tasks; with more tasks the assertion at their increment
  (`nimble/os/freertos/queue.c:270-293`) can fire.
* Times of the kernel are compared with a clock that never wraps; only its lower 32 bits are visible
  to the code.
* The writer and the reader of a stream buffer are one each; their copies may be split anywhere and
  interleaved in any order. Buffers are smaller than half the address space.
* The flash of the boot loader holds the image area and the backup area, as one of 520192 bytes
  does. Where a header announces an image that reaches further, what the code reads of it is
  required to lie within the flash.

## Where the code does not keep a natural promise

* The version of an area has 16 bits and area one has the odd ones. A collection out of area one at
  version 65535 is lost at the next start-up (`KvCommit.WrapLosesCollection`, with an image in
  `KvWrap.ResetIsLostOnce`), and only that one (`KvCommit.CommittedIsPicked`). `KvRuns.Run` bounds
  the commands and start-ups before which it cannot happen.
* The CRC of a record does not cover the two bytes of padding in its header
  (`KvDamage.PaddingIsIgnored`); any other byte of the record outside the three sizes is
  (`KvDamage.DamageIsSeen`). What a reader makes of a record with a changed size depends on the bytes
  behind it.
* The holder of a mutex runs at no less than the priority of its waiters as long as the tasks that
  take this mutex take no other (`Inheritance.HolderOutranksWaiters`). Once one of them does, the bound
  fails for any two mutexes: either inheritance stops at a holder that itself waits (`Outranking.NotPassedOn`), or,
  although no task takes a mutex while it holds one, a task that held one mutex and dropped when it
  gave it takes the other in the place of the waiter that was woken for it
  (`Outranking.TakenByTheLower`).
* The assertion that a task which leaves a take is not itself the holder fails on some runs in which a
  task takes a mutex twice (`SelfTakes.LeavesItself`), and on no others
  (`SelfTakes.LeavesAnotherHolder`).
* A wait that is checked less than once per overflow of the tick count may be taken for a young one
  (`Ticks.CheckIsRight` has the exact condition, `Ticks.LateCheckMisses` an input for every length).
* `vListInsertEnd` is documented to place an item last in the walk; the item under the index is met
  after it (`Lists.List.InsertEnd`).
* The completeness check of the boot loader accepts images up to 0x73000 bytes, but the move is right
  only up to 0x37000 bytes with header and tail (`ImageMove.FinishedIsInstalled`,
  `ImageMove.OversizedFails`). The final erase is given an address 512 bytes into the backup and
  is taken to erase the sector that address lies in.

## Model

| member | source | states |
|---|---|---|
| `Crc16.Bitwise` | nimble/host/kv_store/mtb_kvstore.c:378-392 | The bitwise loop over a 32-bit register computes the 16-bit CRC, on every byte string and from every initial value. |
| `Crc16.UpperHalfNeverMatters` | nimble/host/kv_store/mtb_kvstore.c:378-392 | The upper half of the register, which is never masked, has no influence on the lower half. |
| `Crc16.CrcOfConcatenation` | nimble/host/kv_store/mtb_kvstore.c:570-594 | A CRC taken in pieces is the CRC of the whole, so a record checked through a small buffer matches the one that was written. |
| `CrcTable.TableHoldsShiftedBytes` | nimble/mcu_boot/src/uart_dfu.c:24-56 | Every entry of the constant table is its index shifted out of the register bit by bit. |
| `CrcTable.TableStep` | nimble/mcu_boot/src/uart_dfu.c:58-67 | One table step equals eight bitwise steps. |
| `CrcTable.TableDriven` | nimble/mcu_boot/src/uart_dfu.c:58-67 | The table-driven form equals the bitwise form with initial value 0 on every byte string. |
| `KvFormat.HeaderRoundTrip` | nimble/host/kv_store/mtb_kvstore.c:865-885 | A record header written to flash is read back field by field. |
| `KvFormat.InspectWritten` | nimble/host/kv_store/mtb_kvstore.c:639-760 | A record that is on flash as it was written is accepted, with its key and data. |
| `KvFormat.InspectParts` | nimble/host/kv_store/mtb_kvstore.c:639-760 | A record with an intact header and key is accepted exactly when the CRC in the header is that of the bytes found. |
| `KvDamage.ChangeShows` | nimble/host/kv_store/mtb_kvstore.c:378-392 | Changing any one byte of a message changes its CRC, whatever the message and the initial value. |
| `KvDamage.HeaderLayout` | nimble/host/kv_store/mtb_kvstore.c:179-189 | Where each field of a header is on flash, in little-endian order. |
| `KvDamage.CrcLayout` | nimble/host/kv_store/mtb_kvstore.c:520-562 | The CRC in a record's header, computed field by field, is that of all its bytes but the padding and the CRC itself. |
| `KvDamage.DamageIsSeen` | nimble/host/kv_store/mtb_kvstore.c:520-764 | A stored record of which one byte has changed is refused, whichever byte of the magic number, the format version, the flags, the CRC, the key or the data it is. |
| `KvDamage.PaddingIsIgnored` | nimble/host/kv_store/mtb_kvstore.c:520-545 | The two bytes of padding in a header are not covered: the record is accepted whatever they are. |
| `KvPort.ReadAny` | nimble/host/kv_store/mtb_kvstore.c:1283-1340 | Without a key to look for, reading a record succeeds on an intact record only, and tells erased from damaged flash. |
| `KvPort.ReadWritten` | nimble/host/kv_store/mtb_kvstore.c:639-760 | Reading a record that is there returns success, key mismatch or too little room, as the caller asked. |
| `KvPort.Port.BufferedCrc` | nimble/host/kv_store/mtb_kvstore.c:570-594 | The CRC taken chunk by chunk through the buffer is the CRC of the bytes on flash. |
| `KvPort.Port.ValidateKey` | nimble/host/kv_store/mtb_kvstore.c:600-630 | Comparing a stored key with the caller's is exact, although the caller's pointer is not advanced between chunks: a key fits one chunk. |
| `KvPort.Port.ReadRecord` | nimble/host/kv_store/mtb_kvstore.c:639-760 | The status, header, key and data of a read, for every flash content: erased, damaged, mismatching or too long for the buffer. |
| `KvPort.Port.BufferedWrite` | nimble/host/kv_store/mtb_kvstore.c:891-939 | Writing a record in pieces leaves whole buffers on flash, in order, and the rest in the buffer; a flush completes the record. |
| `KvPort.Port.PutRecord` | nimble/host/kv_store/mtb_kvstore.c:949-1020 | The flash after a record was written, and every image passed through: a prefix of the record at least one buffer long. |
| `KvPort.Port.EraseArea` | nimble/host/kv_store/mtb_kvstore.c:493-514 | The area is blank at the end; on the way the opening of the area is intact until its sector, the last one, goes as a whole. |
| `KvPort.Port.CopyRecord` | nimble/host/kv_store/mtb_kvstore.c:1109-1167 | A copied record is intact at its new place, or the copy is refused because it does not fit and nothing changes. |
| `KvReplay.ReplayFindsLog` | nimble/host/kv_store/mtb_kvstore.c:1309-1336 | Replaying an area gives back exactly the records that were appended, in order, and stops at the first bad one. |
| `KvReplay.TornIsSeen` | nimble/host/kv_store/mtb_kvstore.c:1309-1336 | A record cut short is refused, unless its CRC happens to fit with the erased rest; then it is exactly that record. |
| `KvImage.AreaReplays` | nimble/host/kv_store/mtb_kvstore.c:1309-1336 | The records of a complete area are read off its image. |
| `KvImage.RewritingKeepsMap` | nimble/host/kv_store/mtb_kvstore.c:1173-1277 | A cut anywhere while the other area is rewritten changes neither the area chosen nor the map recovered. |
| `KvImage.NewAreaIsPicked` | nimble/host/kv_store/mtb_kvstore.c:1457-1471 | With both area records in place start-up picks the newer area, unless area one had version 65535, and then it picks the older one. |
| `KvLoad.LoadingReads` | nimble/host/kv_store/mtb_kvstore.c:1309-1336 | What a replay meets at each offset: the next record, erased flash at the end, or a record that was cut short. |
| `KvLoad.FirstOpening` | nimble/host/kv_store/mtb_kvstore.c:1473-1500 | The first area record, with any odd version, makes area one current with no records. |
| `KvIndex.AddIndexes` | nimble/host/kv_store/mtb_kvstore.c:422-460 | Inserting an entry where the lookup stopped keeps the table sorted by falling hash and exact. |
| `KvIndex.UpdateIndexes` | nimble/host/kv_store/mtb_kvstore.c:422-460 | Updating an entry in place keeps the table exact for all other keys, also those with the same hash. |
| `KvIndex.RemoveIndexes` | nimble/host/kv_store/mtb_kvstore.c:422-460 | Removing an entry keeps the table exact for all other keys. |
| `KvIndex.SameEntries` | nimble/host/kv_store/mtb_kvstore.c:1283-1410 | Two tables for the same live records hold the same entries; only the order among equal hashes may differ. |
| `KvLive.LiveFits` | nimble/host/kv_store/mtb_kvstore.c:466-487 | The live records never take more room than the log: consumed size is at most the free offset. |
| `KvLive.AllLive` | nimble/host/kv_store/mtb_kvstore.c:1173-1277 | A log in which every key is written once is all live: after a collection consumed size and free offset are equal. |
| `KvOutcome.SizesAfter` | nimble/host/kv_store/mtb_kvstore.c:466-487 | The consumed size is that of the live records after an addition, an update and a deletion. |
| `KvOutcome.IndexesAfter` | nimble/host/kv_store/mtb_kvstore.c:422-460 | After an append the table indexes the log with the new record at its end. |
| `KvCompact.CopyLogContents` | nimble/host/kv_store/mtb_kvstore.c:1187-1232 | The copied records leave exactly the pairs that are kept. |
| `KvCompact.CopyFits` | nimble/host/kv_store/mtb_kvstore.c:1187-1232 | Each copy of a collection fits the new area, because everything kept fits. |
| `KvCompact.MovedAndUpdated` | nimble/host/kv_store/mtb_kvstore.c:1187-1262 | After a collection that replaces one value on the way the table indexes the new area. |
| `KvCommit.CommittedIsPicked` | nimble/host/kv_store/mtb_kvstore.c:1264-1277 | The new area becomes current when its area record is written, except exactly at the version wrap, where the old one stays. |
| `KvCommit.WrapLosesCollection` | nimble/host/kv_store/mtb_kvstore.c:1457-1471 | At the wrap (area one, version 65535) a finished collection is lost: start-up recovers the map from before it. |
| `KvCommit.CollectingIsAtomic` | nimble/host/kv_store/mtb_kvstore.c:1173-1277 | A collection cut at any flash step, also one that wraps the version, leaves the map from before or the one it was to leave. |
| `KvWrap.ResetIsLost` | nimble/host/kv_store/mtb_kvstore.c:1457-1471 | On any device there is an image at version 65535 from which a finished reset is undone by the next start-up. |
| `KvWrap.ResetIsLostOnce` | nimble/host/kv_store/mtb_kvstore.c:1457-1471 | One such image, on two areas of 4096 bytes with one pair: after the reset start-up still recovers the pair. |
| `KvOutcome.PassedOver` | nimble/host/kv_store/mtb_kvstore.c:1416-1510 | A record appended to an area that start-up would not choose changes nothing of what start-up recovers. |
| `KvCommit.AppendDone` | nimble/host/kv_store/mtb_kvstore.c:949-1020 | A completed append leaves the area one record longer and the choice of area as it was. |
| `KvCommit.AppendCut` | nimble/host/kv_store/mtb_kvstore.c:949-1020 | What start-up recovers from an append cut after any number of bytes: the old map, or a misread record exactly if the CRC fits by accident. |
| `KvOutcome.OldOrNew` | nimble/host/kv_store/mtb_kvstore.c:1516-1641 | With a CRC that tells unfinished records from finished ones only the maps from before and after a write remain. |
| `KvOutcome.TombstoneIsNeverTorn` | nimble/host/kv_store/mtb_kvstore.c:1945-1958 | A deletion goes to flash in one step and needs no assumption about the CRC. |
| `KvOutcome.CollectRecovers` | nimble/host/kv_store/mtb_kvstore.c:1173-1277 | All images passed through by a collection recover to the old or the new map. |
| `KvStore.Store.CopyLive` | nimble/host/kv_store/mtb_kvstore.c:1187-1232 | All live records but one are copied in table order and the table points at the copies; every image passed through keeps the old area. |
| `KvStore.Store.Commit` | nimble/host/kv_store/mtb_kvstore.c:1264-1277 | The area record is written last; the areas swap and the version counts up. |
| `KvStore.Store.Collect` | nimble/host/kv_store/mtb_kvstore.c:1173-1277 | A collection, with a replacement or deletion on the way: full exactly if the result does not fit, and then nothing changes; else the map, table, sizes and free offset are those of the result. |
| `KvStore.Store.Find` | nimble/host/kv_store/mtb_kvstore.c:1069-1103 | The lookup finds a key if and only if it is stored, tells keys with equal hashes apart, and otherwise stops where the key belongs. |
| `KvStore.Store.AppendRecord` | nimble/host/kv_store/mtb_kvstore.c:1568-1641 | Flash, table and sizes after an append; every image passed through recovers to the old or the new map, or, in an area start-up would not choose, to what it recovered before. |
| `KvStore.Store.PutByCollecting` | nimble/host/kv_store/mtb_kvstore.c:1568-1641 | A record that does not fit the free end is written by collecting the area, with the same effect on the map; the version goes up by one, and every image passed through, also where the version wraps, recovers to the old or the new map. |
| `KvStore.Store.WriteWithFlags` | nimble/host/kv_store/mtb_kvstore.c:1516-1641 | A write or deletion acts on the map as on a finite map; it reports full if and only if the live data would not fit, and then changes nothing. |
| `KvStore.Store.Write` | nimble/host/kv_store/mtb_kvstore.c:1738-1757 | Parameter errors, full, or the map with the key set to the value; every flash image on the way recovers to the old or the new map. |
| `KvStore.Store.Delete` | nimble/host/kv_store/mtb_kvstore.c:1945-1958 | The map without the key, whether or not it was there; a cut deletion is seen whole or not at all. |
| `KvStore.Store.Read` | nimble/host/kv_store/mtb_kvstore.c:1820-1872 | Reads return the last value written, padded with zeros, and its size; errors for bad keys, absent keys and too little room. |
| `KvStore.Store.KeyExists` | nimble/host/kv_store/mtb_kvstore.c:1763-1782 | Whether the key is stored. |
| `KvStore.Store.ValueSize` | nimble/host/kv_store/mtb_kvstore.c:1788-1814 | The size of the stored value. |
| `KvStore.Store.Reset` | nimble/host/kv_store/mtb_kvstore.c:1964-1986 | The empty map; a cut reset is seen whole or not at all. |
| `KvStore.Store.EnsureCapacity` | nimble/host/kv_store/mtb_kvstore.c:2032-2056 | Succeeds if and only if the free live space suffices, collecting if need be; the map stays. |
| `KvStore.Store.Size` | nimble/host/kv_store/mtb_kvstore.c:2023-2026 | The consumed size is the area record and the live records. |
| `KvStore.Store.RemainingSize` | nimble/host/kv_store/mtb_kvstore.c:2062-2065 | The rest of the area. |
| `KvStore.Store.LoadRecord` | nimble/host/kv_store/mtb_kvstore.c:1309-1336 | One step of the replay: the next record is entered, or the replay ends as the flash says. |
| `KvStore.Store.LoadEntry` | nimble/host/kv_store/mtb_kvstore.c:1337-1385 | A replayed record is entered into table and sizes; a tombstone always finds its key. |
| `KvStore.Store.BuildRamTable` | nimble/host/kv_store/mtb_kvstore.c:1283-1410 | The RAM state is rebuilt from the active area; after a record that was cut short the area is collected at once. |
| `KvStore.Store.CheckArea` | nimble/host/kv_store/mtb_kvstore.c:1029-1044 | Whether an area opens with a complete area record, and its version. |
| `KvStore.Store.SetupAreas` | nimble/host/kv_store/mtb_kvstore.c:1416-1510 | Start-up chooses the current area, or formats area one if there is none, and a cut while it does recovers to the empty map. |
| `KvStore.Store.Init` | nimble/host/kv_store/mtb_kvstore.c:1649-1732 | Start-up recovers the map of the image; cut at any flash step, also where it wraps the version, it recovers the same map the next time; the version goes up by one at most. |
| `KvRuns.Run` | nimble/host/kv_store/mtb_kvstore.c:1516-1641 | Any run of writes, deletions, resets and collections, cut at any flash step, also inside the start-ups after a cut, behaves like the map, each cut operation seen whole or not at all (or misread as the CRC allows). The run is complete if the version found first, one, and one for every command and every start-up add up to at most 65535; otherwise it can stop early only at a power cut after a finished command that wrapped the version, and then start-up recovers the map from before that command. |
| `KvRuns.CutAfterWrap` | nimble/host/kv_store/mtb_kvstore.c:1516-1641 | After the version has wrapped, a command that is cut and does not collect leaves start-up with what it would have recovered before. |
| `KvRuns.Step` | nimble/host/kv_store/mtb_kvstore.c:1516-1641 | One operation and the start-ups after its cut leave what the map allows, and raise the version by at most one each; start-up would choose the active area afterwards unless the version has wrapped. |
| `KvRuns.PowerUp` | nimble/host/kv_store/mtb_kvstore.c:1649-1732 | Start-ups cut anywhere, any number of times, recover the same map, also where they wrap the version. |
| `KvRuns.CutIsAtomic` | nimble/host/kv_store/mtb_kvstore.c:1516-1641 | If the CRC tells unfinished records from finished ones, a cut operation is seen whole or not at all. |
| `KvRuns.ReplayIsLog` | nimble/host/kv_store/mtb_kvstore.c:1283-1410 | Replaying the active area gives the records, the free offset, the consumed size and the index of the running store. |
| `KvRuns.Restart` | nimble/host/kv_store/mtb_kvstore.c:1283-1410 | A store started on the same flash agrees with the running one in records, sizes, area, version and table entries. |
| `KvRuns.DurableIsSound` | nimble/host/kv_store/mtb_kvstore.c:1416-1510 | Between operations start-up would recover exactly the map of the running store. |
| `KvRuns.NeverUsed` | nimble/host/kv_store/mtb_kvstore.c:1473-1500 | A blank device is one start-up accepts, with the empty map and version one. |
| `Mutexes.StepKeeps` | nimble/os/freertos/tasks.c:4100-4369 | Every kernel step keeps the accounts of any set of mutexes: holders, counts, held counts, waiting lists and base priorities. |
| `Mutexes.AccountsAlways` | nimble/os/freertos/queue.c:542-565 | In every reachable state a mutex is free exactly when its count is one and it has no holder, every task counts the mutexes that name it, and a task that holds none runs at its base priority. |
| `Inheritance.InheritIsFair` | nimble/os/freertos/tasks.c:4100-4183 | A raised holder bounds the task that raised it. |
| `Inheritance.JoinIsFair` | nimble/os/freertos/tasks.c:3091-3112 | Joining the list by item value keeps the list in order of priority, but for a holder waiting in its own list. |
| `Inheritance.GiveIsFair` | nimble/os/freertos/queue.c:2186-2201 | Giving wakes the highest waiter, and until it has run only tasks at least that high run. |
| `Inheritance.DisinheritIsFair` | nimble/os/freertos/tasks.c:4270-4369 | When a waiter times out its holder drops no lower than the remaining waiters. |
| `Inheritance.StepIsFair` | nimble/os/freertos/tasks.c:4100-4369 | Every step, on this mutex or on others, keeps the invariant behind the bound. |
| `Inheritance.HolderOutranksWaiters` | nimble/os/freertos/queue.c:1549-1727 | With any mutexes and any number of tasks: if the tasks that take a mutex take no other one, its holder runs at no less than the priority of every task in its waiting list, in every reachable state, whatever the other tasks take. |
| `Inheritance.TakerOutranksWaiters` | nimble/os/freertos/queue.c:1549-1602 | A task that takes a free mutex, also before the woken waiter runs, outranks everyone still waiting for it. |
| `Inheritance.OneMutexIsEnough` | nimble/os/freertos/queue.c:1549-1727 | In a system with one mutex that condition holds of every run. |
| `Outranking.NotPassedOn` | nimble/os/freertos/tasks.c:4100-4183 | For any two mutexes there is a run in which a task waits while it holds the other mutex, inheritance stops at it, and a holder runs below a waiter. |
| `Outranking.TakenByTheLower` | nimble/os/freertos/queue.c:904-926 | For any two mutexes there is a run in which no task takes a mutex while it holds one, and yet a holder runs below a waiter: it gave the other mutex, dropped, and took the one that a woken task was about to take. |
| `SelfTakes.LeavesAnotherHolder` | nimble/os/freertos/tasks.c:4266-4310 | As long as no task begins to take a mutex it holds, a task that leaves a take never finds itself as the holder, so neither assertion fails. |
| `SelfTakes.LeavesItself` | nimble/os/freertos/tasks.c:4297-4310 | For any mutex there is a run in which a task that takes it twice reaches the assertion as its own holder, and the assertion fails. |
| `MutexKernel.Kernel.PriorityInherit` | nimble/os/freertos/tasks.c:4100-4183 | In-place inheritance makes the step of the state machine and reports whether it counts as inherited. |
| `MutexKernel.Kernel.PriorityDisinherit` | nimble/os/freertos/tasks.c:4190-4263 | The giver counts one mutex less, and returns to its base priority with the last one; a yield is asked for if it dropped. |
| `MutexKernel.Kernel.GetDisinheritPriorityAfterTimeout` | nimble/os/freertos/queue.c:2150-2170 | The priority of the first waiter, read from its list item. |
| `MutexKernel.Kernel.PriorityDisinheritAfterTimeout` | nimble/os/freertos/tasks.c:4270-4369 | The holder drops to the larger of its base priority and that of the first waiter, if it holds no other mutex. |
| `MutexKernel.Kernel.PlaceOnEventList` | nimble/os/freertos/tasks.c:3091-3112 | The current task joins behind every item that is not greater. |
| `MutexKernel.Kernel.RemoveFromEventList` | nimble/os/freertos/tasks.c:3177-3240 | The first waiter is readied; the result tells whether it outranks the running task. |
| `MutexKernel.Kernel.TakeOrGoOn` | nimble/os/freertos/queue.c:1549-1627 | A mutex that is free is taken, patient or not, with count, holder and held count stated; otherwise nothing changes but that a patient task goes on to check its timeout and an impatient one returns. |
| `MutexKernel.Kernel.BlockOrRetry` | nimble/os/freertos/queue.c:1632-1687 | A task whose time is not up waits exactly if the mutex is taken; then it is on the list and the holder runs at least as high. |
| `MutexKernel.Kernel.RetryOrLeave` | nimble/os/freertos/queue.c:1683-1727 | After the block time the task tries again exactly if the mutex is free, and then it cannot block any more; no priority, list or mutex changes. |
| `MutexKernel.Kernel.FailToTake` | nimble/os/freertos/queue.c:1693-1721 | A take that fails after an inheritance leaves the holder, if it holds this mutex only, at its base priority or that of the first waiter, whichever is higher; other tasks stay as they are. |
| `MutexKernel.Kernel.GiveMutex` | nimble/os/freertos/queue.c:856-966 | After a give the mutex is free, the first waiter is off the list and about to try it, the giver is at its base priority if it holds nothing else, and a switch is due if the woken task is higher or, without a waiter, if the giver dropped. |
| `MutexKernel.Kernel.EndBlockTime` | nimble/os/freertos/tasks.c:2763-2829 | A block time that runs out takes the task off the waiting list. |
| `MutexKernel.Kernel.Do` | nimble/os/freertos/queue.c:1518-1727 | Every step of the code is the step of the state machine and keeps the accounts. |
| `Takes.FreeIsTaken` | nimble/os/freertos/queue.c:1559-1627 | In every reachable state a look at a free mutex takes it, whether the task may block or not; at a taken one nothing changes but the place of the task. |
| `Takes.TakeEnds` | nimble/os/freertos/queue.c:1518-1727 | Over every run a take ends with the mutex, or because it may not wait, or after its time was found to be up, and without the mutex only if that was taken when the task looked last. |
| `Takes.ImpatientOnlyLooks` | nimble/os/freertos/queue.c:1600-1608 | A take without a block time never blocks: until it returns it has only to look at the count. |
| `Takes.TakenIsAwaited` | nimble/os/freertos/queue.c:1637-1674 | A task whose time is not up and that finds the mutex taken goes on the waiting list, with the holder at least as high as it. |
| `Takes.LeaveDrops` | nimble/os/freertos/queue.c:1693-1721 | Over every run, a task that gives up after an inheritance leaves a holder of one mutex at its base priority or at that of the first task still waiting, whichever is higher. |
| `Wakeups.PayOffEffect` | nimble/os/freertos/queue.c:2279-2396 | An unlock wakes as many waiters as are owed, in list order, and does nothing to the other side. |
| `Wakeups.StepKeeps` | nimble/os/freertos/queue.c:835-1044 | Every step of tasks and interrupts keeps the invariant behind the wake-ups. |
| `Wakeups.NoLostWakeups` | nimble/os/freertos/queue.c:835-1044 | While tasks wait on a side, what is available to it is at most the tasks woken for it that have not tried again plus the wake-ups owed, or the lock count has reached the number of tasks. |
| `Wakeups.NobodySleepsOnData` | nimble/os/freertos/queue.c:1403-1517 | Once nobody is on the way no task sleeps while there is a message, or room, for it. |
| `Wakeups.LockCountsFit` | nimble/os/freertos/queue.c:270-293 | The lock counts stay within a signed byte, so the assertion at their increment never fires. |
| `WakeupKernel.Kernel.TopOfLoop` | nimble/os/freertos/queue.c:856-1000 | A call that finds a message, or room, is served and over, with the first message handed over; one that does not returns if it may not wait, and otherwise goes on to lock the queue, with messages and lists as they were. |
| `WakeupKernel.Kernel.LockQueue` | nimble/os/freertos/queue.c:251-263 | Locking sets both counts only where they were unlocked. |
| `WakeupKernel.Kernel.SendFromISR` | nimble/os/freertos/queue.c:1083-1196 | A send from an interrupt, on a locked and on an unlocked queue. |
| `WakeupKernel.Kernel.ReceiveFromISR` | nimble/os/freertos/queue.c:1882-1965 | A receive from an interrupt, on a locked and on an unlocked queue, and the message it hands over. |
| `WakeupKernel.Kernel.CopyDataToQueue` | nimble/os/freertos/queue.c:2175-2255 | The message sent becomes the last, or the first, or takes the place of the only one; the others keep their order. |
| `WakeupKernel.Kernel.UnlockSent` | nimble/os/freertos/queue.c:2287-2365 | The loop over the owed wake-ups of receivers pays off that side. |
| `WakeupKernel.Kernel.UnlockReceived` | nimble/os/freertos/queue.c:2368-2395 | The loop over the owed wake-ups of senders pays off that side. |
| `WakeupKernel.Kernel.Do` | nimble/os/freertos/queue.c:835-1970 | Every step of the code, with the messages in the ring, is the step of the state machine, keeps its invariant and hands over the message the machine says. |
| `WakeupKernel.Run` | nimble/os/freertos/queue.c:835-1970 | A whole run of the code on a new queue: what is handed over, followed by what is in the ring, is what was sent, in order if it was sent to the back, and never lost or doubled without overwriting. |
| `Calls.CallEnds` | nimble/os/freertos/queue.c:835-1510 | Over every run a call ends served, with its message in or out; or because it may not wait and could not go on, the queue unchanged; or after its time was found to be up, and a receive then only if the queue was empty when it looked last. |
| `Calls.ImpatientOnlyLooks` | nimble/os/freertos/queue.c:967-978 | A call without a block time returns at its first look, and leaves the queue as it is if it cannot go on. |
| `Calls.StuckGoesOnList` | nimble/os/freertos/queue.c:1002-1026 | A call that may wait and cannot go on goes on the waiting list, unless its time is up. |
| `Calls.WaitsAndIsServed` | nimble/os/freertos/queue.c:1376-1510 | On any queue there is a run in which a task waits, is woken by an interrupt that sends, and gets that message. |
| `QueueStorage.Storage.CopyTo` | nimble/os/freertos/queue.c:2200-2250 | Copying into the ring, at the write pointer or before the read pointer, puts the message behind the others, in front of them, or in the place of the only one. |
| `QueueStorage.Storage.Receive` | nimble/os/freertos/queue.c:2257-2275 | Moving the read pointer on takes out the oldest message, around the end of the ring. |
| `QueueStorage.Storage.Peek` | nimble/os/freertos/queue.c:1764-1782 | A peek hands over the oldest message, and with the read pointer restored the messages are the same. |
| `MessageOrder.FirstInFirstOut` | nimble/os/freertos/queue.c:835-1510 | Over any run of tasks and interrupts that send to the back, what was handed over, followed by what is in the queue, is what was sent, in order. |
| `MessageOrder.NoneLost` | nimble/os/freertos/queue.c:835-1510 | Over any run without overwriting, no message is lost or handed over twice, and the queue never holds more than its length. |
| `Ticks.ListInsert` | nimble/os/freertos/list.c:128-196 | Sorted insertion behind all items that are not larger, also for the largest value. |
| `Ticks.NextTick` | nimble/os/freertos/tasks.c:2734-2760 | The tick count and the overflow count are those of a clock that never wraps. |
| `Ticks.WakeTime` | nimble/os/freertos/tasks.c:5330-5401 | A wake time below the count lies in the next epoch, and one above it in this one. |
| `Ticks.Clock.AddCurrentTaskToDelayedList` | nimble/os/freertos/tasks.c:5330-5401 | A task blocked for some ticks is due when the clock has advanced by as many, over any wrap; without a limit it is never due. |
| `Ticks.Clock.ResetNextTaskUnblockTime` | nimble/os/freertos/tasks.c:4032-4050 | The next unblock time is never later than the first wake time. |
| `Ticks.Clock.SwitchDelayedLists` | nimble/os/freertos/tasks.c:201-213 | At the wrap the delayed list is empty, and after the swap each list holds wake times of its own epoch. |
| `Ticks.Clock.WakeDue` | nimble/os/freertos/tasks.c:2763-2829 | Exactly the tasks at the head whose time has come are popped. |
| `Ticks.Clock.ProcessTick` | nimble/os/freertos/tasks.c:2734-2840 | A tick wakes exactly the tasks that are due at this time. |
| `Ticks.Clock.IncrementTick` | nimble/os/freertos/tasks.c:2734-2900 | While the scheduler is suspended ticks are pended; ticks that came are the tick count advanced plus those pended. |
| `Ticks.Clock.MovePendingReady` | nimble/os/freertos/tasks.c:2205-2235 | Tasks readied meanwhile leave their delayed and event lists. |
| `Ticks.Clock.ResumeAll` | nimble/os/freertos/tasks.c:2181-2290 | When the last suspension ends every pended tick is processed, and exactly the tasks due by then that were not readied wake. |
| `Ticks.Clock.CatchUpTicks` | nimble/os/freertos/tasks.c:2620-2640 | Catching up some ticks is that many ticks, and exactly the tasks due by then wake. |
| `Ticks.Clock.RemoveFromEventList` | nimble/os/freertos/tasks.c:3177-3240 | An event takes a task off its lists, at once or when the scheduler resumes. |
| `Ticks.Clock.Delay` | nimble/os/freertos/tasks.c:1309-1345 | A delay blocks the task until the clock has advanced by as much. |
| `Ticks.Clock.SleepThrough` | nimble/os/freertos/tasks.c:1309-1345 | A task that sleeps through tick interrupts sleeps for exactly its ticks, over any wraps. |
| `Ticks.DelayWindow` | nimble/os/freertos/tasks.c:1239-1270 | The overflow tests of a periodic delay are right on the unbounded clock. |
| `Ticks.Clock.DelayUntil` | nimble/os/freertos/tasks.c:1222-1305 | A periodic delay blocks if and only if its next time has not passed, and until exactly then. |
| `Ticks.Clock.CheckForTimeOut` | nimble/os/freertos/tasks.c:3314-3376 | The check on the wrapped counts is the check at the time of the clock. |
| `Ticks.CheckIsRight` | nimble/os/freertos/tasks.c:3314-3376 | The verdict is right about the time passed if and only if the wait did not outlive the overflow count with a young tick count. |
| `Ticks.LateCheckMisses` | nimble/os/freertos/tasks.c:3314-3376 | A wait of any length from 2 ticks on that was entered at the last count of one epoch and is first checked a whole wrap and one tick later has passed, and the check says that it has not. |
| `Ticks.WaitsAddUp` | nimble/os/freertos/tasks.c:3294-3376 | Over any number of checks with at most one overflow in between, remaining wait and time passed add up, and a timeout is reported exactly when that much time has passed. |
| `Ticks.ForeverNeverExpires` | nimble/os/freertos/tasks.c:3330-3340 | A wait without limit never times out. |
| `Timers.Window` | nimble/os/freertos/timers.c:716-757 | Comparing wrapped times less than a wrap apart, and their difference. |
| `Timers.InsertRule` | nimble/os/freertos/timers.c:716-757 | The tests for an expiry that has passed, and the list one to come goes on, are right across the wrap. |
| `Timers.ExpiryIsMultiple` | nimble/os/freertos/timers.c:522-538 | The k-th expiry of a timer is its start plus k periods. |
| `Timers.Daemon.InsertTimerInActiveList` | nimble/os/freertos/timers.c:716-757 | A timer is listed for its next expiry in the list of its epoch, or found to have expired. |
| `Timers.Daemon.ReloadTimer` | nimble/os/freertos/timers.c:522-538 | The reload loop ends; the callback runs once for each expiry passed, and the timer is listed for the first one to come. |
| `Timers.Daemon.ProcessExpiredTimer` | nimble/os/freertos/timers.c:541-566 | The first timer of the list has exactly the callbacks of its expiries so far. |
| `Timers.Daemon.SwitchTimerLists` | nimble/os/freertos/timers.c:908-930 | At a wrap the rest of the current list has expired and is served; then each list holds expiries of its own epoch. |
| `Timers.Daemon.SampleTimeNow` | nimble/os/freertos/timers.c:693-713 | The lists are switched exactly when the tick count is smaller than at the last sample; that may be any time ago while no timer is listed, and less than a wrap ago otherwise. Every timer makes progress only. |
| `Timers.Daemon.ProcessTimerOrBlock` | nimble/os/freertos/timers.c:604-663 | The daemon blocks only when no expiry has passed, and otherwise makes progress. |
| `Timers.Daemon.Serve` | nimble/os/freertos/timers.c:588-663 | However late the daemon runs, each active timer then has had exactly the callbacks of its expiries: none early, skipped or repeated. An active auto-reload timer stays active; a one-shot timer is inactive exactly if its expiry has passed, after the one callback for it. |
| `Timers.Daemon.StartCommand` | nimble/os/freertos/timers.c:797-850 | A started timer is active and listed for its first expiry after now, counted from the command, with exactly the callbacks of the expiries until now; a one-shot timer whose time has passed is inactive after its one callback. The other timers make progress only. |
| `Timers.Daemon.StopCommand` | nimble/os/freertos/timers.c:852-856 | A stopped timer is inactive, on no list and not called; the others make progress only. |
| `Timers.Daemon.ChangePeriodCommand` | nimble/os/freertos/timers.c:858-871 | A changed period counts from now: the timer is active and listed for one new period from now; the others make progress only. |
| `EventBits.MetBits` | nimble/os/freertos/event_groups.c:693-727 | The wait condition bit by bit: every bit asked for is set, or at least one is. |
| `EventBits.FewerBits` | nimble/os/freertos/event_groups.c:693-727 | A wait condition that fails keeps failing when bits are cleared. |
| `EventBits.ClearedBit` | nimble/os/freertos/event_groups.c:593-621 | The bits cleared are those some released waiter asked to have cleared. |
| `EventBits.EventGroup.SetBits` | nimble/os/freertos/event_groups.c:533-626 | Setting bits releases exactly the waiters of which all bits, or any, are set in old and new bits together, all with that value; bits are cleared after every waiter is judged, and are those a released waiter asked to have cleared; no waiter that is left has all its bits, or any, set; the bits that are left are returned. |
| `EventBits.EventGroup.ClearBits` | nimble/os/freertos/event_groups.c:473-497 | Clearing bits leaves no satisfied waiter and returns the bits from before. |
| `EventBits.EventGroup.WaitBits` | nimble/os/freertos/event_groups.c:339-407 | A wait goes on at once exactly if all bits, or any, asked for are set or it may not block; otherwise it joins the list. |
| `EventBits.EventGroup.Sync` | nimble/os/freertos/event_groups.c:212-255 | Setting and waiting in one piece. |
| `EventBits.EventGroup.TimeOut` | nimble/os/freertos/tasks.c:2763-2829 | A waiter whose block time runs out leaves the list. |
| `EventBits.EventGroup.GoOn` | nimble/os/freertos/event_groups.c:424-469 | A task that blocked goes on with the value that released it, or after a timeout with the value of now. |
| `Rendezvous.JoinedLast` | nimble/os/freertos/event_groups.c:212-228 | The last task of a round releases all others with the bits of everybody, and the bits are clear for the next round. |
| `Rendezvous.Barrier.NobodyLeavesEarly` | nimble/os/freertos/event_groups.c:194-310 | No task returns from its r-th call before every task has made its r-th call. |
| `Rendezvous.Barrier.Arrive` | nimble/os/freertos/event_groups.c:194-310 | The last task of a round returns at once with all bits and the bits are clear; the others block. |
| `Rendezvous.Barrier.Depart` | nimble/os/freertos/event_groups.c:257-310 | A released task returns with the bits of all tasks. |
| `Rendezvous.Run` | nimble/os/freertos/event_groups.c:194-310 | Under any schedule of tasks, what is seen of the barrier is what the meeting without bits says; at every point of it no task has returned more often than any other has called, and all get all bits. |
| `Rendezvous.RoundCompletes` | nimble/os/freertos/event_groups.c:194-310 | Whatever the order in which the tasks call, once all have called and those that waited go on, each has called and returned once and nobody is left behind. |
| `StreamBuffers.CopyInSpares` | nimble/os/freertos/stream_buffer.c:1248-1290 | Copying into the buffer, at any point of a send, leaves the unread bytes alone. |
| `StreamBuffers.CopyInFits` | nimble/os/freertos/stream_buffer.c:1248-1290 | Copied bytes lie behind those copied before, around the end of the buffer. |
| `StreamBuffers.CopyOutFits` | nimble/os/freertos/stream_buffer.c:1293-1335 | Copied-out bytes are the unread ones, in order, whatever the writer does meanwhile. |
| `StreamBuffers.NextMessage` | nimble/os/freertos/stream_buffer.c:1075-1124 | The unread bytes begin with the oldest message that was not received. |
| `StreamBuffers.UnreadMessages` | nimble/os/freertos/stream_buffer.c:991-1006 | There are unread bytes exactly when there is a message, and then more than its length prefix. |
| `StreamBuffers.TakenWhole` | nimble/os/freertos/stream_buffer.c:1075-1124 | What the reader takes before moving the tail is one whole message, or the next bytes of the stream. |
| `StreamBuffers.StreamBuffer.BytesInBuffer` | nimble/os/freertos/stream_buffer.c:1338-1356 | The number of unread bytes. |
| `StreamBuffers.StreamBuffer.SpacesAvailable` | nimble/os/freertos/stream_buffer.c:597-627 | The free space: one less than the buffer length less the unread bytes. |
| `StreamBuffers.StreamBuffer.IsEmpty` | nimble/os/freertos/stream_buffer.c:1127-1148 | Empty if and only if there are no unread bytes. |
| `StreamBuffers.StreamBuffer.IsFull` | nimble/os/freertos/stream_buffer.c:1151-1183 | Full if and only if not even an empty message, or one byte, fits. |
| `StreamBuffers.StreamBuffer.StartSend` | nimble/os/freertos/stream_buffer.c:824-862 | A message goes in whole or not at all; a stream takes what fits. |
| `StreamBuffers.StreamBuffer.CopyIn` | nimble/os/freertos/stream_buffer.c:1248-1290 | A copy step keeps the unread bytes and the invariant between writer and reader. |
| `StreamBuffers.StreamBuffer.FinishSend` | nimble/os/freertos/stream_buffer.c:864-870 | Moving the head publishes the payload behind all others; an empty message is not published. |
| `StreamBuffers.StreamBuffer.StartReceive` | nimble/os/freertos/stream_buffer.c:945-956 | A receive starts exactly if there is something to read for it. |
| `StreamBuffers.StreamBuffer.MeasureMessage` | nimble/os/freertos/stream_buffer.c:1084-1116 | The length read is that of the oldest message; too little room ends the receive with the message left in place. |
| `StreamBuffers.StreamBuffer.FinishReceive` | nimble/os/freertos/stream_buffer.c:1114-1121 | Moving the tail releases exactly what is handed over: in message mode the oldest message. |
| `StreamBuffers.StreamBuffer.Send` | nimble/os/freertos/stream_buffer.c:824-871 | A whole send: what is accepted, and that nothing changes when a message does not fit. |
| `StreamBuffers.StreamBuffer.Receive` | nimble/os/freertos/stream_buffer.c:1075-1124 | A whole receive: what is handed over, and that nothing changes when there is too little room. |
| `StreamBuffers.StreamBuffer.NextMessageLength` | nimble/os/freertos/stream_buffer.c:978-1014 | The length of the oldest message, with the buffer left as it is. |
| `StreamBuffers.Run` | nimble/os/freertos/stream_buffer.c:824-1124 | Under any schedule of copy and index steps of one writer and one reader, what is accepted and delivered is what a queue of bytes under that schedule says, and what is delivered is what was accepted, in order: byte for byte, or message for message. |
| `StreamBuffers.ComesThrough` | nimble/os/freertos/stream_buffer.c:824-1124 | Every payload that fits the buffer, sent and then received with just enough room, is accepted and delivered whole. |
| `Lists.LinkedWith` | nimble/os/freertos/list.c:110-124 | Putting an item between two neighbours keeps one ring. |
| `Lists.LinkedWithout` | nimble/os/freertos/list.c:199-225 | Taking an item out keeps one ring. |
| `Lists.List.Initialise` | nimble/os/freertos/list.c:50-83 | A new list is the ring of its end marker. |
| `Lists.List.Place` | nimble/os/freertos/list.c:128-190 | The search ends, also for the largest value, behind all items that are not larger. |
| `Lists.List.Insert` | nimble/os/freertos/list.c:128-196 | A stable sorted insert: the item comes behind all that are not larger, and a sorted list stays sorted. |
| `Lists.List.InsertEnd` | nimble/os/freertos/list.c:98-125 | The item is met last in the walk from the index, but before the item under the index itself. |
| `Lists.List.Remove` | nimble/os/freertos/list.c:199-225 | The item is gone, the index stays inside, the count is exact, and the walk over the others is the same. |
| `Lists.List.Next` | nimble/os/freertos/include/list.h:285-296 | The walk gives each item its turn and skips the end marker. |
| `ImageMove.Loader.SumUp` | nimble/mcu_boot/src/flash_manager.c:35-40 | The checksum taken piece by piece is the sum of all bytes and never reaches 32 bits. |
| `ImageMove.Loader.CompletedCheck` | nimble/mcu_boot/src/flash_manager.c:81-112 | The check accepts exactly a size above 256 and at most 0x73000 whose bytes add up to the checksum in the header, on any flash that holds both areas and the image. |
| `ImageMove.CheckAgain` | nimble/mcu_boot/src/flash_manager.c:81-112 | An image the check accepts is refused once any byte of the image, or of the checksum in its header, has changed. |
| `ImageMove.Loader.WriteFlash` | nimble/mcu_boot/src/flash_manager.c:16-28 | A write lands on erased flash, with the next sector erased first when it is needed. |
| `ImageMove.Loader.Move` | nimble/mcu_boot/src/flash_manager.c:49-78 | The flash after the move; on the way the backup is lost if and only if header, image and tail do not fit below it. |
| `ImageMove.MidwayIsIntact` | nimble/mcu_boot/src/flash_manager.c:49-78 | A move that fits, cut anywhere before its last step, leaves a complete backup of the same size. |
| `ImageMove.FinishedIsInstalled` | nimble/mcu_boot/src/flash_manager.c:49-78 | The image area equals the backup's header, image and tail if and only if they fit below the backup, or the bytes that reach into its first sector look erased. |
| `ImageMove.FinishedIsIncomplete` | nimble/mcu_boot/src/flash_manager.c:76-77 | After the move the header of the backup alone is refused by the check. |
| `ImageMove.OversizedFails` | nimble/mcu_boot/src/flash_manager.c:81-90 | An image on a flash of 520192 bytes that the check accepts and the move destroys, in both places. |
| `ImageMove.Loader.Boot` | nimble/mcu_boot/src/main.c:14-17 | A start moves the backup exactly if its size is sensible and its bytes add up to its checksum; otherwise the flash does not change. What fits below the backup is then in the image area byte by byte, and what lies before that area is as it was. |
| `ImageMove.Starts` | nimble/mcu_boot/src/main.c:14-17 | Any number of starts cut anywhere, and one that is not, install the image once. |

## Left out

- Key-value store: reading with no key, partial reads, de-initialising, growing the table and running out of memory, the mutex around calls (a call is one step to other tasks), the layout checks and the sizing of the buffer in `mtb_kvstore_init`.
- Key-value store: flash calls that return an error and leave the power on; RAM offsets are then not consistent with the flash.
- Key-value store: an area that ends in fewer than four bytes of version data counts as having no area record; the source reads an uninitialised value there.
- Key-value store: the branch of the replay that passes over a tombstone for an absent key is proved never to be taken and is not written out; the erase of an empty rest of a one-sector area is folded into the loop.
- KvStore.Store.Init: requires an image that only the store has written; what start-up makes of arbitrary flash contents is not modelled.
- KvStore.Store.SetupAreas: requires an image that only the store has written, as `Init` does.
- KvStore.Store.CheckArea: requires an area that opens with an area record of this store or with none.
- KvStore.Store.Write: excludes sizes whose record size overflows 32 bits; a value that long does not fit the address space beside the program.
- KvStore.Store.WriteWithFlags: excludes sizes whose record size overflows 32 bits, as `Write` does.
- KvRuns.Run: stops at a power cut after a finished command that wrapped the version; what start-up recovers then is stated, except where the cut command collects again.
- KvRuns.Step: requires that start-up would choose the active area when the power fails; `KvRuns.CutAfterWrap` has the other case.
- Inheritance.HolderOutranksWaiters: requires that the tasks that take the mutex take no other, because without that it fails for any two.
- MutexKernel.Kernel.PlaceOnEventList: the delayed list and the block time are in `Ticks`, not in this state.
- MutexKernel.Kernel.RemoveFromEventList: the branch for a suspended scheduler is `Ticks.Clock.RemoveFromEventList`; a mutex is not given while the scheduler is suspended.
- MutexKernel.Kernel.EndBlockTime: wakes the task it is given; that the tick wakes exactly those whose time has come is `Ticks.Clock.ProcessTick`.
- Ticks.Clock.IncrementTick: whether a context switch is requested is not modelled, nor in `ResumeAll`, `CatchUpTicks` and `RemoveFromEventList`, because priorities are not part of the clock.
- Ticks.Clock.ResumeAll: whether a yield was performed is not modelled.
- Ticks.Clock.CatchUpTicks: whether a yield was performed is not modelled.
- Ticks.Clock.RemoveFromEventList: whether the woken task outranks the current one is not modelled.
- Ticks.Clock.AddCurrentTaskToDelayedList: excludes a block time of zero, which only the timer daemon asks for, at a count of zero with nothing in its current list; it is woken by the next tick then.
- Ticks.Clock.DelayUntil: requires a previous wake time less than a whole wrap in the past, beyond which the count cannot tell.
- Timers.Daemon.ProcessTimerOrBlock: that the daemon blocks is stated, not for how long.
- Timers.Daemon.Serve: the time is that of the last sample while the daemon serves what has expired by then.
- StreamBuffers.StreamBuffer.SpacesAvailable: head and tail are read in one step; the loop that reads the tail again is not written out.
- Wakeups.LockCountsFit: for at most 127 tasks, beyond which it fails.
- ImageMove.Loader.CompletedCheck: requires that an image of a size that is not refused at once lies within the flash, because what the flash controller reads beyond its end is not modelled.
- ImageMove.Loader.Move: requires that what is moved lies within the flash, as `CompletedCheck` does.
- Rendezvous.Run: the last task to join a round returns in the same step in which it calls.
- Mutexes: the call count of recursive mutexes, mutexes given from interrupts, `vTaskPrioritySet`, suspended and deleted tasks.
- Queues: queue sets, reset and deletion of a queue in use, items of more than one slot of the ring, the order of waiting lists by priority in `Wakeups` (what is proved holds for any order).
- Ticks: tickless idle, aborted delays, time slicing and the choice of the next task; the number of overflows is not bounded.
- Timers: pended function calls, deletion of timers, callbacks that issue commands from inside the callback; a one-shot timer is marked inactive before its callback here and after it in the source.
- Event groups: the forms for interrupts, which the source hands to the timer daemon, and deletion; the control bits in a list item are fields of the waiter.
- Stream buffers: blocking with a timeout, trigger levels and the notifications between writer and reader; a send that waits is a send that looks at the space later.
- Lists: integrity check values and owners.
- Boot loader: receiving images over UART, USB or radio, the jump into the image, and a program or erase call that is cut half way through.
- Stack setup, memory management, statistics, tracing, co-routines and hardware access.
