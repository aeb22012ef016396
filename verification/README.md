# gPlat verification model

gPlat is a real-time tag and queue server. Its shared memory library keeps boards of tags, databases of tables and ring
queues in mapped blocks; its server receives requests over TCP, answers them, and posts events to subscribers; its PLC
side polls tags and exchanges blocks. This project models the logic of these parts in Dafny and proves what they keep.

## How the model is laid out

| file | part of the system |
|---|---|
| `Bytes.dfy`, `Arithmetic.dfy` | bytes laid end to end, modular arithmetic |
| `Probing.dfy` | the open-addressed index: hashes, probe sequence, lookup, insertion, tombstones |
| `Store.dfy`, `Heap.dfy` | a mapped block: index, data area, type area, allocation and compaction |
| `Board.dfy`, `BoardRuns.dfy` | tags on a board, and whole runs of operations on one |
| `BoardFull.dfy` | how a board comes to have no never-used slot left |
| `Runs.dfy` | runs of operations in general |
| `Records.dfy`, `Database.dfy`, `DatabaseRuns.dfy` | tables of fixed-size records, and whole runs |
| `Registry.dfy` | the table of loaded queues, boards and databases |
| `RingQueue.dfy` | FIFO and shifting queues |
| `Crc32.dfy` | the table-driven checksum against its bit-serial definition |
| `Receive.dfy` | cutting the received byte stream into messages |
| `Send.dfy` | the send thread and the write handlers, and the numbers of sockets |
| `Delivery.dfy` | POSTWAIT, events and timeouts on one connection |
| `Subscribe.dfy`, `Logic.dfy` | the subscription index, its reverse index, and the handlers |
| `Timers.dfy` | the timer manager |
| `PostWait.dfy` | a wait with a limit, through connection and timer manager |
| `Pool.dfy` | the connection pool and its recycling |
| `Partner.dfy` | block transfer between S7 partners |
| `ReadGroups.dfy` | grouping tags for polling |

Code that changes memory in place is modelled by classes with the same fields and loops. Each method is proved against a
function of the old state, and the promises are lemmas about that function over every run of operations. Two threads at
work on one socket are a state machine whose steps are the atomic pieces of either thread. Nodes shared by two containers,
as in the timer manager, are named by their number; connections are objects.

Facts of the code that are easy to miss, kept as they are and stated:

- Frames of one connection can leave in another order than they were queued: when a partial frame completes in the middle
  of a pass that has already left a later frame of that connection in the queue, the pass may start a still later one
  first. `Send.OrderIff` says exactly when this happens, `Send.OrderlyRunsKeepOrder` when it cannot, and
  `Send.MidPassCompletionReorders` is such a run.
- A block of 65536 bytes is sent whole and reported with size 0, because the size travels in 16 bits; an empty block sends
  nothing. `Partner.BlockArrivesIff` gives the exact range.
- A timer interval so long that expiry plus interval does not fit 64 bits is rescheduled into the past.
  `Timers.RescheduleIff` gives the exact condition, `Timers.LongIntervalRunsWild` an example; a pass is proved to end when
  the clock plus each interval fits 64 bits and callbacks add finitely many timers. `Timers.PassesHaveNoBound` shows that
  no number of callbacks is the last as long as they add timers that are due.
- A slot keeps the length of the last string when its tag is deleted, and a new tag in the slot inherits it. Reading a
  string from that tag returns as many bytes, past the end of a shorter tag. `Board.StringInside` says exactly when the read
  stays inside, `BoardRuns.StaleLengthIsRead` shows the other case for every name and every pair of sizes.
- A timeout callback that was not cancelled in time answers the next timed wait early. `Delivery.OwnTimerIff` says when
  that can happen, `Delivery.StaleTimerAnswersEarly` is such a run.
- The callback of a delayed event takes no lock. A wait or an event handled between its look and what it does next can
  leave an event held for a client that waits, reverse two events, or answer one wait twice: `Delivery.WaitWhileHeld`,
  `Delivery.NextOneOvertakes`, `Delivery.TwoRepliesToOneWait`, `Delivery.AnsweredWaitTimesOut`.
  `Delivery.AlwaysConsistentIff`, `Delivery.AlwaysInOrderIff` and `Delivery.RepliesAccounted` say exactly when;
  `Delivery.WholeKeepsPromises` and `Logic.UndelayedKeepsPromises` when it cannot happen.
- A connection that goes back to the pool forgets its tags without a look at the subscription index. A subscription made
  after the cancellation stays there, past the next cancellation of the connection, and its next client gets the events.
  `Subscribe.IndexIsHistoryIff` says exactly when the index is right, `Subscribe.FreedNodeStays` shows the other case.
- A frame made for a connection after its socket was closed passes the check of the send thread, and can reach the next
  client with that socket number. `Send.AlwaysSafeIff` and `Send.LateFrameGoesAstray` say when and show it.
- The write handler wakes the send thread before it takes back the count of the connection. A pass in between leaves the
  frame, and nothing wakes the thread again: `Send.AlwaysCoveredIff`, `Send.FrameIsForgotten`.
- A part write with a negative offset passes the guard and writes in front of the tag. `Board.WriteBPart` says exactly when
  the other tags stay as they were.
- The list of tag names is copied to rows of 24 bytes, though names can have 39 characters: `Board.RowHoldsIff`.
- `ClearQ` reports failure after clearing the queue.
- Refreshing a table with too many records empties it.
- A client that waits again before its wait was answered loses one of the two answers; `Delivery.RepliesAccounted`
  counts them.
- After a second PLC server registers for a tag and leaves, the first one is not restored (`Subscribe.LivePlc`).
- The server-side ticks go to every subscriber of the timer name, also to those that asked for delayed events.

## Model

| member | source | states |
|---|---|---|
| Probing.ComputeHash1 | higplat/higplat.cpp:353-363 | the loop over the characters gives the start slot, always inside the smaller table |
| Probing.ComputeHash2 | higplat/higplat.cpp:365-376 | the loop gives the stride, always 1 to 274 |
| Probing.SumOfCodes | higplat/higplat.cpp:353-376 | the sum that both hashes take is that of the character codes, whatever their order |
| Probing.HashesMean | higplat/higplat.cpp:353-376 | the start slot is that sum modulo 277; the stride is it modulo 275, or 1 where that is 0 |
| Probing.TableSizesArePrime | higplat/qbd.h:173-174 | 277 and 7177 are prime |
| Probing.WalkClosedForm | higplat/higplat.cpp:150-376 | k turns of the probe loop land at (start + k * stride) modulo the table size |
| Probing.AtInjective | higplat/higplat.cpp:150-376 | one cycle of probes never visits a slot twice |
| Probing.ProbeCovers | higplat/higplat.cpp:150-376 | one cycle of probes visits every slot |
| Probing.LookupEndsIff | higplat/higplat.cpp:2799-2812 | a lookup loop ends if and only if some slot is never used or holds the name |
| Probing.LookupFindsLive | higplat/higplat.cpp:2799-2812 | a live name is found in its own slot, past every tombstone before it |
| Probing.LookupFindsIff | higplat/higplat.cpp:2799-2812 | a lookup answers "found" exactly for the live names |
| Probing.InsertKeeps | higplat/higplat.cpp:4080-4139 | entering a name in the first reusable slot of its path keeps every entry reachable and names distinct |
| Probing.DeleteKeeps | higplat/higplat.cpp:3318 | leaving a tombstone keeps every other entry reachable |
| Store.ShiftedDescribes | higplat/higplat.cpp:3322-3362 | after compaction each shifted slot again says where its item starts in both areas |
| Store.ShiftOffset | higplat/higplat.cpp:3340-3362 | removing a chunk moves exactly the later chunks down, by its size |
| Store.CompactArea | higplat/higplat.cpp:3322-3340 | closing the gap leaves the remaining chunks end to end and gives every byte back |
| Store.DeleteAgree | higplat/higplat.cpp:3280-3369 | the index after a deletion describes exactly the remaining items |
| Store.AllocateAgree | higplat/higplat.cpp:4114-4140 | the index after a creation describes the items and the new one |
| Store.OverwriteArea | higplat/higplat.cpp:3023-3137 | writing an item in place leaves every other chunk alone |
| Store.LiveCountIsItemCount | higplat/higplat.cpp:4130-4140 | the live counter equals the number of entries |
| Store.LiveListIsItems | higplat/higplat.cpp:2698-2762 | the walk over the index lists every live name exactly once |
| Store.AllocateInv | higplat/higplat.cpp:4048-4143 | creation keeps the whole block invariant and adds one entry to the map |
| Store.RemoveInv | higplat/higplat.cpp:3280-3369 | deletion keeps the whole block invariant and removes one entry from the map |
| Store.UpdateInv | higplat/higplat.cpp:3023-3207 | an in-place write keeps the whole block invariant and changes one entry of the map |
| Heap.Block.constructor | higplat/higplat.cpp:2599-2684 | a fresh block holds no entries, all of its space is free and every slot has never been used |
| Heap.Block.Tiling | higplat/higplat.cpp:3280-3369 | live items tile [0, nextpos) without gap, kept type descriptions tile [0, nexttypepos) |
| Heap.Block.ExtentsDisjoint | higplat/higplat.cpp:3280-3369 | two live entries share no byte of the data area or of the type area |
| Heap.Block.Counters | higplat/higplat.cpp:4236-4264 | nextpos + remain is the data capacity, nexttypepos + typeremain the type capacity, indexcount the number of entries |
| Heap.Block.Probe | higplat/higplat.cpp:2799-2812 | the lookup loop stops at the first never-used or matching slot of the path |
| Heap.Block.Find | higplat/higplat.cpp:2799-2820 | the slot found is live and holds the name exactly if the name is an entry; then it describes that entry |
| Heap.Block.FindFree | higplat/higplat.cpp:4080-4095 | the creation loop stops at the first never-used or tombstone slot of the path |
| Heap.Block.Allocate | higplat/higplat.cpp:4114-4140 | the new entry takes the next bytes, and its type description is kept when it fits |
| Heap.Block.CloseGap | higplat/higplat.cpp:3322-3340 | moving the tail of an area down removes one chunk and nothing else |
| Heap.Block.ShiftSlots | higplat/higplat.cpp:3340-3362 | every live slot behind the gap has its start moved down in both areas |
| Heap.Block.Remove | higplat/higplat.cpp:3280-3369 | exactly one entry disappears and its space in both areas is free again |
| Heap.Block.Put | higplat/higplat.cpp:3085-3137 | the bytes of one entry change from an offset on; all else stays |
| Heap.Block.PutAcross | higplat/higplat.cpp:3127-3132 | bytes written anywhere in the data area: sizes, places and all the bookkeeping stay, each entry has the bytes that now lie at its place |
| Store.RecutInv | higplat/higplat.cpp:3127-3132 | the whole block invariant holds of the entries cut out of the area anew |
| Store.FrontDecides | higplat/higplat.cpp:3127-3132 | a write that begins in front of an entry and ends in it leaves the other entries alone if and only if the bytes in front stay the same |
| Heap.Block.Get | higplat/higplat.cpp:2780-2837 | the bytes read are those of the entry |
| Heap.Block.GetType | higplat/higplat.cpp:4160-4234 | the type description read is the one kept for the entry |
| Heap.Block.Reset | higplat/higplat.cpp:3232-3266 | no entries, all space free |
| Heap.Block.LiveEntries | higplat/higplat.cpp:2698-2762 | the names listed are those of the entries, each once |
| Board.CreateB | higplat/higplat.cpp:2599-2684 | a new board has no tags, its whole capacity as room, and no slot ever used |
| Board.CreateItem | higplat/higplat.cpp:4048-4143 | creates a zeroed tag with its kept type description in the first free slot of its path, whose string length it inherits, or reports exactly which of the errors applies; one never-used slot less if and only if that slot was one |
| Board.DeleteItem | higplat/higplat.cpp:3280-3369 | removes one tag, gives up its slot and its room; all others keep bytes, type, string length and slot; the never-used slots stay the same, no slot forgets its string length |
| Board.WriteB | higplat/higplat.cpp:3023-3137 | replaces the bytes of a tag of exactly that size, or reports the error and changes nothing |
| Board.WriteBPart | higplat/higplat.cpp:3023-3230 | replaces a part of the bytes of a tag within bounds; a part that begins in front of the tag gives the tag its share, and leaves the other tags as they were if and only if it writes back what was there |
| Board.WriteB_String | higplat/higplat.cpp:3139-3207 | stores the string and its length over zeroed bytes when it fits; the slots keep their names |
| Board.ClearB | higplat/higplat.cpp:3232-3266 | no tags, whole capacity, every slot as never used |
| Board.ReadB | higplat/higplat.cpp:2780-2837 | returns the bytes of the tag when the size matches, else the error |
| Board.ReadB_String2 | higplat/higplat.cpp:2937-3003 | for every tag: as many bytes from its start as the slot records for a string, past its end if that is more; its string when one was written |
| Board.StringInside | higplat/higplat.cpp:2937-3003 | the bytes read are a beginning of the tag if and only if the recorded length does not exceed it; always so, and the string itself, once a string was written |
| Board.ReadType | higplat/higplat.cpp:4160-4234 | returns the kept type description, nothing when unknown or untyped |
| Board.ReadBoardInfo | higplat/higplat.cpp:4236-4264 | the counters reported equal a recount of the index |
| Board.ReadInfoB | higplat/higplat.cpp:2698-2762 | copies the name of every tag exactly once, each to the start of a row of the caller, when there are rows enough; else nothing |
| Board.RowHoldsIff | higplat/higplat.cpp:2738-2752 | a row holds its name if and only if the name is shorter than the 24 bytes of a row |
| Board.BehindStays | higplat/higplat.cpp:2738-2752 | nothing behind the rows of the caller changes when every name is shorter than a row, or a row is left over |
| Records.AppendRows | higplat/higplat.cpp:3668-3730 | copying records behind the present ones appends exactly those rows |
| Records.ReplaceRow | higplat/higplat.cpp:3595-3654 | overwriting one record replaces that row only |
| Records.RowsFlatten | higplat/higplat.cpp:3812-3891 | the records laid end to end are the table bytes in use |
| Database.CreateTable | higplat/higplat.cpp:3389-3493 | creates an empty table with its type description, or reports exactly which error applies and changes nothing; at most one never-used slot is taken |
| Database.DeleteTable | higplat/higplat.cpp:3905-3992 | removes one table, gives its room back, leaves all others with their rows and the never-used slots |
| Database.ClearTable | higplat/higplat.cpp:3535-3581 | empties one table |
| Database.UpdateTable | higplat/higplat.cpp:3595-3654 | replaces one existing row, or reports the error |
| Database.InsertTable | higplat/higplat.cpp:3668-3730 | appends rows when they fit the maximum, or reports the error and changes nothing |
| Database.RefreshTable | higplat/higplat.cpp:3733-3798 | replaces all rows; when they do not fit the table is left empty and the error reported |
| Database.SelectTable | higplat/higplat.cpp:3812-3891 | returns exactly the rows in order |
| Database.ClearDB | higplat/higplat.cpp:3994-4028 | no tables, every slot as never used |
| Heap.Block.LookupEndsExactly | higplat/higplat.cpp:2799-2812 | a lookup in a block ends if and only if a never-used slot is left or the name is an entry |
| Store.TombstonesOnly | higplat/higplat.cpp:3318-3320 | an index of tombstones satisfies the whole invariant, yet no lookup in it would end |
| Heap.Block.GetRun | higplat/higplat.cpp:2989-2995 | bytes from the start of an entry on, through the data area into the type area, as they lie in the file |
| BoardRuns.Perform | higplat/higplat.cpp:2780-3369 | any operation does to the tags what its step says, and takes at most one never-used slot |
| BoardRuns.Serve | higplat/higplat.cpp:2599-3369 | from a fresh board any run with fewer creations than slots between clears completes, and the block then holds exactly what the run makes of an empty map |
| BoardRuns.UntouchedTagStays | higplat/higplat.cpp:2780-3369 | of two blocks, one further along the same run: a tag nothing touched in between has the same bytes, type and string |
| BoardRuns.ShapeIsFixed | higplat/higplat.cpp:3280-3369 | size and type description of a tag stay from creation on, through writes and compactions |
| BoardRuns.StringsAlwaysFit | higplat/higplat.cpp:3139-3207 | in every valid board a string written since creation is within its tag |
| BoardRuns.LastWriteIsRead | higplat/higplat.cpp:2780-3137 | ReadB of a block after any run returns the last full write to the tag |
| BoardRuns.WrittenPartIsRead | higplat/higplat.cpp:3117-3137 | after a part write and any operations elsewhere, ReadB returns the part at its offset and every other byte as ReadB did before |
| BoardRuns.StringIsPadded | higplat/higplat.cpp:3193-3198 | after a string write ReadB returns the string and then zeros, nothing of what the tag held before |
| BoardRuns.NewTagReadsZeros | higplat/higplat.cpp:4114-4143 | ReadB of a block returns zeros for a tag not written since its creation, after any run |
| BoardRuns.LastStringIsRead | higplat/higplat.cpp:2937-3207 | ReadB_String2 of a block after any run returns exactly the last string written |
| BoardRuns.TypeIsRead | higplat/higplat.cpp:4160-4234 | ReadType of a block after any run returns the type given at creation, if and only if it was kept |
| BoardRuns.DeleteUndoesCreate | higplat/higplat.cpp:3280-3369 | on a block, creating a tag and deleting it restores all tags and all room |
| BoardRuns.GoneIsUnknown | higplat/higplat.cpp:3232-3369 | a tag deleted, or cleared away with the board, is unknown to ReadB until it is created again |
| BoardRuns.RoomIsWhatIsLeft | higplat/higplat.cpp:4114-4143 | in every valid board the room is the capacity less the sizes of all tags, and the type room likewise |
| BoardRuns.CreateReports | higplat/higplat.cpp:4048-4143 | a creation fails for the first that applies of four reasons, too long a type, a known name, more bytes than are left, too many tags, and for no other |
| BoardRuns.OthersReport | higplat/higplat.cpp:3023-3369 | the other operations fail exactly for an unknown name or a size that does not fit |
| BoardRuns.RefusedChangesNothing | higplat/higplat.cpp:3023-3369 | an operation that fails changes nothing |
| BoardRuns.StaleLengthIsRead | higplat/higplat.cpp:4114-4139 | a tag created again shorter than the string its name once held gives out as many bytes as that string had |
| BoardFull.NoTombstone | higplat/higplat.cpp:3318-3320 | as long as never-used slots and tags add up to all slots, there is no tombstone |
| BoardFull.FillUp | higplat/higplat.cpp:4048-4143 | 7176 creations on a new board all succeed and leave exactly one slot that was never used |
| BoardFull.NoSlotIsLeft | higplat/higplat.cpp:3280-4143 | a board reached by one deletion and one creation more has no never-used slot left, and no lookup of an unknown name on it ends |
| DatabaseRuns.Perform | higplat/higplat.cpp:3389-3992 | any operation does to the tables what its step says, and takes at most one never-used slot |
| DatabaseRuns.Serve | higplat/higplat.cpp:3389-4028 | from a blank database any run with fewer creations than slots between clears completes, and the block then holds exactly what the run makes of an empty map |
| DatabaseRuns.OtherTablesStay | higplat/higplat.cpp:3535-3992 | of two blocks, one further along the same run: a table nothing touched in between has the same rows |
| DatabaseRuns.RefreshedRowsAreSelected | higplat/higplat.cpp:3733-3891 | SelectTable of a block returns the rows of the last refresh, whatever happened to other tables |
| DatabaseRuns.InsertedRowsAreSelected | higplat/higplat.cpp:3668-3891 | SelectTable of a block returns the inserted rows behind those the table held |
| DatabaseRuns.UpdatedRowIsSelected | higplat/higplat.cpp:3595-3654 | after an update and any operations elsewhere, SelectTable returns the record at its place and every other byte as it did before |
| DatabaseRuns.EmptyTableIsSelected | higplat/higplat.cpp:3535-3798 | a table just created, emptied, or refreshed with too many records is selected with no record until it is filled |
| DatabaseRuns.GoneIsUnknown | higplat/higplat.cpp:3905-4028 | a table deleted, or cleared away with the database, is unknown to SelectTable until it is created again |
| DatabaseRuns.RoomIsWhatIsLeft | higplat/higplat.cpp:3389-3493 | in every valid database the room is the capacity less what is set aside for all tables |
| DatabaseRuns.CreateReports | higplat/higplat.cpp:3389-3493 | a creation fails for the first that applies of four reasons and for no other |
| DatabaseRuns.OthersReport | higplat/higplat.cpp:3535-3798 | the other operations fail exactly for an unknown table, another record size, a row or a number of records that is too large |
| DatabaseRuns.RefusedChangesNothing | higplat/higplat.cpp:3535-3798 | an operation that fails changes nothing, but for a refresh with too many records |
| DatabaseRuns.InsertSplits | higplat/higplat.cpp:3668-3730 | on a block, inserting in two batches is inserting at once |
| DatabaseRuns.AlwaysBounded | higplat/higplat.cpp:3389-3992 | in every valid database each table holds at most its maximum of rows, all of its record size |
| Registry.SomeSlotIsNeverUsed | higplat/higplat.cpp:150-336 | the bound on tabCounter keeps one never-used slot in every reachable state |
| Registry.LookupIsExact | higplat/higplat.cpp:215-258 | a lookup stops at the entry of a registered name or at a never-used slot |
| Registry.RegistryTable.Find | higplat/higplat.cpp:215-233 | the lookup loop ends for every name, by the invariant alone, and finds exactly the registered ones |
| Registry.RegistryTable.InsertTab | higplat/higplat.cpp:150-213 | registers the name with count 1, or refuses when the table has taken all slots but one |
| Registry.RegistryTable.FetchTab | higplat/higplat.cpp:215-258 | returns the handle registered, if any |
| Registry.RegistryTable.FetchTab1 | higplat/higplat.cpp:260-303 | returns the handle and counts one more user |
| Registry.RegistryTable.DeleteTab | higplat/higplat.cpp:305-351 | counts one user less; the last one frees the entry |
| Registry.RegistryTable.LoadQ | higplat/higplat.cpp:1743-1824 | a name is registered at most once |
| RingQueue.Queue.CreateQ | higplat/higplat.cpp:1617-1732 | a new queue is empty; records over 16384 bytes or type descriptions over 2048 are refused |
| RingQueue.Queue.WriteQ | higplat/higplat.cpp:2252-2319 | NORMAL: appends, or reports full and changes nothing; SHIFT: becomes the newest of the history |
| RingQueue.Queue.ReadQ | higplat/higplat.cpp:1964-2032 | NORMAL: takes the oldest record; SHIFT: shows the newest without consuming it |
| RingQueue.Queue.PopJustRecordFromQueue | higplat/higplat.cpp:2035-2075 | drops the oldest record |
| RingQueue.Queue.PeekQ | higplat/higplat.cpp:2435-2483 | shows the record the next read would take |
| RingQueue.Queue.IsEmptyQ | higplat/higplat.cpp:2495-2534 | exact for a NORMAL queue |
| RingQueue.Queue.IsFullQ | higplat/higplat.cpp:2546-2584 | exact: num - 1 records wait |
| RingQueue.Queue.ClearQ | higplat/higplat.cpp:2330-2359 | empties the queue and reports failure even so |
| RingQueue.Queue.MulReadQ | higplat/higplat.cpp:2092-2146 | as many records as asked for, if there are: SHIFT newest first from `start` writes back, blank beyond the writes so far; NORMAL raw slots |
| RingQueue.FifoWrite | higplat/higplat.cpp:2252-2319 | a write keeps the ring a picture of the waiting records |
| RingQueue.HistoryWrite | higplat/higplat.cpp:2275-2315 | a write ages every record of a SHIFT queue by one |
| RingQueue.FirstInFirstOut | higplat/higplat.cpp:1964-2359 | of a queue object after any calls: what was taken since the last clear followed by what waits is what was accepted, in order |
| Crc32.StepsLinear | gplat/ngx_c_crc32.cxx:39-57 | bit steps distribute over exclusive or |
| Crc32.SerialIsParallel | gplat/ngx_c_crc32.cxx:60-75 | feeding bits one by one equals adding them to the register first |
| Crc32.TableStep | gplat/ngx_c_crc32.cxx:71-72 | one table step equals eight bit steps on the whole register |
| Crc32.RevMsbSteps | gplat/ngx_c_crc32.cxx:50-53 | steps from the top with the polynomial mirror steps from the bottom with the reflected one |
| Crc32.ReflectedIsRev | gplat/ngx_c_crc32.cxx:25-36 | the reflection loop over 32 bits reverses the bits |
| Crc32.TableEntryIsEightSteps | gplat/ngx_c_crc32.cxx:39-57 | a table entry built most significant bit first is eight reflected steps on its index |
| Crc32.CCRC32.Reflect | gplat/ngx_c_crc32.cxx:25-36 | the loop moves bit 0 to bit ch - 1, bit 1 to bit ch - 2, and so on |
| Crc32.CCRC32.InitCrc32Table | gplat/ngx_c_crc32.cxx:39-57 | all 256 entries are eight bit steps on their index |
| Crc32.CCRC32.GetCrc | gplat/ngx_c_crc32.cxx:60-75 | the table-driven loop returns the bit-serial CRC-32 of every buffer |
| Crc32.ChecksumOfChecked | gplat/ngx_c_crc32.cxx:60-75 | a message followed by its own checksum always has the checksum 2144DF1C |
| Crc32.CheckValues | gplat/ngx_c_crc32.cxx:60-75 | the checksums of the empty message and of one zero byte are 0 and D202EF8D |
| Receive.ParseExtends | gplat/ngx_c_socket_request.cxx:28-111 | parsing a longer stream goes on from what was left over |
| Receive.ParseInvertsEncode | gplat/ngx_c_socket_request.cxx:183-259 | any run of proper messages laid end to end is cut back into exactly those |
| Receive.HeadFields | include/msg.h:62-84 | the fields of a message head before the body length take 124 bytes, all of them 180 |
| Receive.LengthIsRead | gplat/ngx_c_socket_request.cxx:191-192 | of the length that a sender writes, low byte first, the receiver takes the low 16 bits, whatever else the head holds |
| Receive.OversizedIsSkipped | gplat/ngx_c_socket_request.cxx:206-216 | a head that announces over 16384 bytes is skipped and the next head begins right behind it |
| Receive.MadeAreReceivedIff | gplat/ngx_c_socket_request.cxx:183-259 | messages whose heads carry the lengths of their bodies are cut back into themselves if and only if every body has at most 16384 bytes |
| Receive.Connection.GetOneToUse | gplat/ngx_c_socket_conn.cxx:37-55 | a connection taken into use waits for a head and has received nothing |
| Receive.Connection.ReadRequestHandler | gplat/ngx_c_socket_request.cxx:28-111 | after every read, dispatched messages and pending bytes are what parsing the whole stream so far gives |
| Receive.Connection.WaitRequestHandlerProcP1 | gplat/ngx_c_socket_request.cxx:183-245 | a complete head is skipped, dispatched at once, or its body of the announced length awaited |
| Receive.Connection.WaitRequestHandlerProcPlast | gplat/ngx_c_socket_request.cxx:248-259 | a complete message is dispatched and the next head awaited |
| Receive.ServeStream | gplat/ngx_c_socket_request.cxx:28-111 | for any sizes of reads the messages dispatched are those of the one-shot parser |
| Receive.ChunkingIsInvisible | gplat/ngx_c_socket_request.cxx:28-111 | two connections given the same bytes, however cut, dispatched the same messages |
| Send.StepKeeps | gplat/ngx_c_socket.cxx:766-917 | every step keeps phases, wire, started frames and queue consistent |
| Send.TakeKeeps | gplat/ngx_c_socket.cxx:784-815 | taking a frame off the queue starts it once, in its own epoch, on an idle connection |
| Send.SenderRecordKeeps | gplat/ngx_c_socket.cxx:826-871 | a full or partial send is accounted for exactly |
| Send.WriteRecordKeeps | gplat/ngx_c_socket_request.cxx:313-331 | a write notification continues the same frame where it stopped |
| Send.WritePostKeeps | gplat/ngx_c_socket_request.cxx:350-353 | the send thread is told that there is room again, while the connection still counts as busy |
| Send.WriteReleaseKeeps | gplat/ngx_c_socket_request.cxx:355-359 | the connection is released only after the frame went out whole |
| Send.FramesStayWhole | gplat/ngx_c_socket.cxx:766-917 | in every reachable state what was written for a socket is whole frames plus the beginning of the one in flight, all of its own epoch, none twice; on the wire there is nothing else but what went astray from a closed connection |
| Send.ClosedStaysSilent | gplat/ngx_c_socket_request.cxx:120-176 | once a connection is closed nothing more is written for it, even if the thread had already taken a frame for it |
| Send.ViewStep | gplat/ngx_c_socket.cxx:325-337 | every step changes what a connection has begun, waiting and queued as the single-connection view says |
| Send.StaleIsDropped | gplat/ngx_c_socket.cxx:784-793 | a frame made for an earlier use of its connection is dropped when the thread comes to it, and no other is dropped so |
| Send.NothingIsLost | gplat/ngx_c_socket.cxx:784-815 | frames queued for an open socket are begun or waiting, each exactly once |
| Send.TakeOrder | gplat/ngx_c_socket.cxx:800-806 | taking a waiting frame keeps the order if and only if it is the first one waiting |
| Send.OrderIff | gplat/ngx_c_socket.cxx:766-917 | frames begin in msgSend order if and only if no pass overtook one |
| Send.OrderlyRunsKeepOrder | gplat/ngx_c_socket_request.cxx:313-359 | order is kept when a completion falls where the pass has left none of the frames of its connection behind |
| Send.OrderlyOutput | gplat/ngx_c_socket_request.cxx:313-359 | then the bytes written are a beginning of the queued frames, one after another |
| Send.MidPassCompletionReorders | gplat/ngx_c_socket_request.cxx:337-359 | a run in which a completion in the middle of a pass lets a later frame begin first |
| Send.AlwaysSafeIff | gplat/ngx_c_socket.cxx:784-815 | at no moment of a run is a frame under way to a closed socket, if and only if no frame is made for a connection after its socket was closed and none is closed while the thread sends for it |
| Send.CarefulRunsStayHome | gplat/ngx_c_socket.cxx:784-815 | then a socket gets nothing but whole frames of its own connection and the beginning of one more |
| Send.AstrayStep | gplat/ngx_c_socket.cxx:826-826 | otherwise bytes can go to another connection: one whose socket has the number of the closed one, and only to that one |
| Send.NumbersDiffer | gplat/ngx_c_socket_request.cxx:120-176 | no two open sockets have the same number, over every run |
| Send.LateFrameGoesAstray | gplat/ngx_c_socket.cxx:784-826 | a run in which a frame made after the close reaches the next client with that socket number |
| Send.BlockedIff | gplat/ngx_c_socket.cxx:755-775 | the send thread is blocked if and only if it is between passes and the semaphore is at zero |
| Send.CoveredStep | gplat/ngx_c_socket_request.cxx:350-359 | a step keeps every frame that could be sent in front of the pass, or the semaphore above zero, unless it takes back the count of a connection of which the pass has left a frame behind, with the semaphore at zero |
| Send.AlwaysCoveredIff | gplat/ngx_c_socket_request.cxx:350-359 | so it is at every moment of a run if and only if no step of the run was such a one |
| Send.RestsWhenDone | gplat/ngx_c_socket.cxx:755-775 | then a thread that is blocked has left no frame that could be sent |
| Send.FrameIsForgotten | gplat/ngx_c_socket_request.cxx:350-359 | a run in which the post comes too early: the thread is blocked while a frame waits for a connection that is free |
| Delivery.Connection.HandlePostWait | gplat/ngx_c_slogic.cxx:547-604 | held event at once; else wait without limit, report a timeout at once, or wait with a timer |
| Delivery.WaitMeans | gplat/ngx_c_slogic.cxx:547-604 | a held event is the answer; a wait of no time is answered with a timeout at once; the client waits only if it asked to, with a timer only if it gave a limit |
| Delivery.TimeoutMeans | gplat/ngx_c_socket.cxx:930-956 | a timer answers a client that waits with a limit and nobody else |
| Delivery.Connection.Deliver | gplat/ngx_c_slogic.cxx:647-665 | under the lock: stops a running timeout; answers the waiting client, else holds the event |
| Delivery.Connection.TimeoutCallback | gplat/ngx_c_socket.cxx:924-958 | answers a timed wait with a timeout, does nothing to any other |
| Delivery.Connection.HangUp | gplat/ngx_c_socket_request.cxx:33-48 | a lost client has its timer stopped |
| Delivery.Connection.DelayedBegin | gplat/ngx_c_slogic.cxx:668-675 | the callback of a delayed event looks at the timeout flag, without a lock |
| Delivery.Connection.DelayedNext | gplat/ngx_c_slogic.cxx:675-690 | each further piece acts on what the last look saw: clears a flag, stops the timer, looks again, sends or holds |
| Delivery.ConsistentStep | gplat/ngx_c_slogic.cxx:547-690 | a step keeps that timed waits have a live timer and whoever waits has nothing held, if and only if it is not a piece of a callback that meets a wait made since its look |
| Delivery.AlwaysConsistentIff | gplat/ngx_c_slogic.cxx:547-690 | at every moment of a run this holds, if and only if no callback of the run met such a wait |
| Delivery.OrderStep | gplat/ngx_c_slogic.cxx:547-748 | a step keeps the order of arrival in events sent, under way and held, if and only if it does not let an event pass a different one before it |
| Delivery.AlwaysInOrderIff | gplat/ngx_c_slogic.cxx:547-748 | events sent, under way and held are the events that arrived, in order, at every moment of a run, if and only if no step of the run let one pass |
| Delivery.RepliesAccounted | gplat/ngx_c_slogic.cxx:547-690 | over every run: replies, those under way, the outstanding wait and overlapped waits are the waits made and the replies decided on while nobody waited |
| Delivery.OnlyTimedWaitsTimeOut | gplat/ngx_c_socket.cxx:924-958 | for a client with one wait at a time and no reply unasked for, each reply answers its wait, and a wait without limit never times out, even when stale timers fire |
| Delivery.CalmIsConsistent | gplat/ngx_c_slogic.cxx:547-690 | no wait handled inside a callback: timed waits keep their timer and nothing is held for who waits |
| Delivery.CalmKeepsOrder | gplat/ngx_c_slogic.cxx:547-690 | then the order is kept as well, unless a callback answers a wait that was answered since its look |
| Delivery.WholeKeepsPromises | gplat/ngx_c_slogic.cxx:547-748 | with neither waits nor events inside callbacks all three promises hold: no event held for who waits, arrival order, one reply for each wait |
| Delivery.UndelayedIsWhole | gplat/ngx_c_slogic.cxx:647-665 | a connection without delayed events is such a case |
| Delivery.WholeCallback | gplat/ngx_c_slogic.cxx:668-690 | a callback nothing comes in between of does what the locked delivery does |
| Delivery.TimedWaitEnds | gplat/ngx_c_socket.cxx:924-958 | as long as no callback met a wait, a timed wait has its timer still to come, and that timer answers it |
| Delivery.OwnTimerIff | gplat/ngx_c_socket.cxx:930-956 | a timed wait can only be timed out by its own timer if and only if no other callback may still come |
| Delivery.OnlyOwnTimers | gplat/ngx_c_slogic.cxx:647-690 | with every cancellation in time and no wait inside a callback there is never a timer but that of the outstanding timed wait, or the one a callback is about to stop |
| Delivery.WaitWhileHeld | gplat/ngx_c_slogic.cxx:675-690 | a run in which a wait falls between look and push: an event is held for a client that waits |
| Delivery.NextOneOvertakes | gplat/ngx_c_slogic.cxx:675-690 | the next event then goes out first |
| Delivery.TwoRepliesToOneWait | gplat/ngx_c_slogic.cxx:675-690 | a run in which an event falls between look and reply: one wait gets two replies |
| Delivery.AnsweredWaitTimesOut | gplat/ngx_c_slogic.cxx:668-690 | a run in which a timed wait falls between the two looks: it is answered and times out afterwards |
| Delivery.StaleTimerAnswersEarly | gplat/ngx_c_socket.cxx:930-956 | a run in which the late callback of one wait times out the next one early |
| Delivery.ConnectionKeepsItsPromise | gplat/ngx_c_slogic.cxx:547-748 | after any calls of its methods a connection object has the exact account of replies and the two conditions above; without delayed events, or with callbacks nothing comes in between of, it keeps all three promises |
| Subscribe.CSubscribe.Detach | gplat/CSubscribe.h:49-59 | removes all nodes of the observer from one tag and keeps the others in order |
| Subscribe.ReversedIff | gplat/ngx_c_socket_conn.cxx:58-76 | a request keeps the reverse index complete, if and only if it is not the return to the pool of a connection that the index still knows |
| Subscribe.ReversedFreedIff | gplat/ngx_c_socket_conn.cxx:75 | clearing the tag lists of a connection keeps the reverse index complete if and only if the connection has no node and no registration |
| Subscribe.CancelLeavesNoTrace | gplat/ngx_c_slogic.cxx:750-761 | with a complete reverse index, leaving removes the connection under every tag and keeps all other subscriptions and their order |
| Subscribe.IndexIsHistory | gplat/CSubscribe.h:36-93 | after a history in which no connection is freed with a request made since its last cancellation, each tag has exactly the subscriptions of connections that have not left since, in order, and the latest live server |
| Subscribe.IndexIsHistoryIff | gplat/ngx_c_socket_conn.cxx:58-76 | the index is that at every moment of a history if and only if no connection was freed so |
| Subscribe.FreedNodeStays | gplat/ngx_c_socket_conn.cxx:75 | a history in which a subscription made after the cancellation is freed: its node stays, also after the next cancellation of the connection |
| Subscribe.NodesWereAsked | gplat/CSubscribe.h:36-67 | whatever the history, every node in the index was subscribed under its tag |
| Subscribe.DetachAllFilters | gplat/ngx_c_slogic.cxx:750-755 | detaching under a list of tags removes the nodes of one connection under those and nothing else |
| Subscribe.DetachPlcAllFilters | gplat/CSubscribe.h:79-85 | detaching removes a registration only if it is the own one of the connection |
| Logic.NodesAreKnown | gplat/CSubscribe.h:62-93 | what the index gives out was asked for by connections of the pool; after a clean history it is the live subscriptions and the live server |
| Logic.CLogicSocket.HandleSubscribe | gplat/ngx_c_slogic.cxx:511-545 | adds the tag to the connection and the node to the index |
| Logic.CLogicSocket.HandleRegisterPlcServer | gplat/ngx_c_slogic.cxx:870-899 | adds the tag to the connection and registers it |
| Logic.CLogicSocket.CancelSubscribe | gplat/ngx_c_slogic.cxx:750-761 | looks under every listed tag; the cancellation joins the history the index comes from |
| Logic.CLogicSocket.PutOneToFree | gplat/ngx_c_socket_conn.cxx:58-76 | the connection forgets its tags, the index is left as it is; the return joins the history |
| Logic.CLogicSocket.HandlePostWait | gplat/ngx_c_slogic.cxx:547-604 | a wait is one action of its connection and of no other |
| Logic.CLogicSocket.NotifySubscriber | gplat/ngx_c_slogic.cxx:606-698 | every connection gets the event with tag and body as often as it has nodes of kind 1 under the tag; each node of kind 2 has one put off by its own delay, under its own name, in the order of the nodes; no other node adds anything; over 500 nodes stop the server; after a clean history the nodes are the live subscriptions |
| Logic.CLogicSocket.BeginDelayed | gplat/ngx_c_slogic.cxx:666-675 | the timer of a delayed event rings and the callback for its own connection begins |
| Logic.CLogicSocket.StepDelayed | gplat/ngx_c_slogic.cxx:675-690 | the callback goes on by one piece of its connection and of no other; handlers of other threads may come before the next |
| Logic.UndelayedKeepsPromises | gplat/ngx_c_slogic.cxx:547-748 | a connection that never asked for delayed events has nothing held while it waits, gets events in order and one reply for each wait, whatever the handlers do |
| Logic.CLogicSocket.NotifyTimerSubscriber | gplat/ngx_c_slogic.cxx:700-748 | every connection gets the tick, under a name cut to 39 characters, once for each of its nodes of whatever kind; after a clean history these are the live ones |
| Logic.CLogicSocket.NotifyPlcIoServer | gplat/ngx_c_slogic.cxx:990-1039 | the value goes to the server in the index, after a clean history the live one, and to nobody else |
| Logic.CLogicSocket.ReadFailed | gplat/ngx_c_socket_request.cxx:33-48 | a lost client has no timeout running, and after a clean history nothing left in the index |
| Timers.RescheduleIff | include/timer_manager.h:243-247 | the next expiry is max(old expiry + interval, now) if and only if that sum fits 64 bits |
| Timers.LongIntervalRunsWild | include/timer_manager.h:243-247 | with the longest interval a timer is due four times in a row |
| Timers.PhaseIsKeptIff | include/timer_manager.h:243-247 | a periodic timer keeps its exact phase if and only if no run was more than one interval late |
| Timers.LateRunLosesPhase | include/timer_manager.h:243-247 | one reschedule keeps the phase if and only if it is at most one interval late |
| Timers.TimerManager.constructor | include/timer_manager.h:22-45 | no timers, numbers from 1, alarm off |
| Timers.TimerManager.AddTimer | include/timer_manager.h:126-155 | a new number, due after the delay; the alarm rings for it by then, and still for the first expiry |
| Timers.TimerManager.Cancel | include/timer_manager.h:75-91 | true exactly for timers in the table; the node becomes invalid; the alarm still rings for the first expiry |
| Timers.TimerManager.ResetTimerFd | include/timer_manager.h:157-176 | the alarm rings at the first expiry, or a millisecond on if that is past |
| Timers.TimerManager.ProcessExpiredTimers | include/timer_manager.h:225-256 | ends whatever finitely many timers the callbacks add and cancel; callbacks in order of expiry; heap and table agree; nothing is due afterwards; the alarm is set |
| Timers.FireStep | include/timer_manager.h:229-241 | taking the top keeps order and pays one callback of what the timer was owed |
| Timers.EffectStep | include/timer_manager.h:238-241 | additions and cancellations while the lock is released keep the account |
| Timers.FinishStep | include/timer_manager.h:243-252 | the end of a callback puts back a periodic timer that was not cancelled, and less work is left |
| Timers.PassCounts | include/timer_manager.h:225-256 | in one pass a one-shot runs at most once, a periodic at most twice, and exactly as often as due unless cancelled |
| Timers.PassMeans | include/timer_manager.h:225-256 | a pass does nothing to a timer before its time; then a one-shot runs once and is gone, a periodic timer runs once and is due one interval later, or twice and one interval from now if it is a whole interval late |
| Timers.NeverEarly | include/timer_manager.h:225-256 | over any interleaving no timer runs before its time, and one that nobody cancels is still to run then |
| Timers.AddedTimerRunsWhenDue | include/timer_manager.h:126-256 | a timer added with a delay, left alone by any calls in between: a pass runs it if and only if the delay is over |
| Timers.CancelledNeverRuns | include/timer_manager.h:75-91 | a timer out of the table is never started again, over any interleaving of passes |
| Timers.PassesHaveNoBound | include/timer_manager.h:229-253 | from a single timer on, callbacks that add timers due at once prolong a pass beyond any number of callbacks |
| PostWait.WaitIsAnsweredInTime | gplat/ngx_c_socket.cxx:924-958 | a client that waits with a limit is left waiting by a pass before the limit and answered with a timeout by a pass from then on |
| Pool.ConnectionPool.constructor | gplat/ngx_c_socket_conn.cxx:79-96 | all connections free, counters equal to the lists |
| Pool.ConnectionPool.GetConnection | gplat/ngx_c_socket_conn.cxx:114-139 | the first free connection with the next number, or a new one; the partition and the counters hold |
| Pool.ConnectionPool.FreeConnection | gplat/ngx_c_socket_conn.cxx:142-158 | back among the free, with the next number and empty tag lists |
| Pool.ConnectionPool.InRecyConnectQueue | gplat/ngx_c_socket_conn.cxx:160-170 | put to rest, with the next number |
| Pool.ConnectionPool.RecyclePass | gplat/ngx_c_socket_conn.cxx:186-228 | terminates despite its restarts; frees exactly the connections that are due, in order, each with the next number and empty tag lists, and touches no other |
| Pool.ConnectionPool.FreeAll | gplat/ngx_c_socket_conn.cxx:231-254 | when stopping, frees all that rest |
| Pool.FreedOrKept | gplat/ngx_c_socket_conn.cxx:197-206 | a resting connection is freed exactly if it is due |
| Pool.RestsAsLongAs | gplat/ngx_c_socket_conn.cxx:197-206 | a connection put to rest is freed once its rest period is over, and not before unless the program stops |
| Partner.CutRebuilds | snap7/src/core/s7_partner.cpp:720-742 | the slices laid end to end are the block |
| Partner.IdsDiffer | snap7/src/core/s7_partner.cpp:434-440 | part numbers are 1 to 254 and never repeat in a row |
| Partner.EndIsLast | snap7/src/core/s7_partner.cpp:764-767 | only the last slice is marked as the end, and every PDU fits the negotiated length |
| Partner.LengthFields | snap7/src/core/s7_partner.cpp:744-778 | the two length fields of a slice count the bytes that follow them; the first slice begins with the length of the block, high byte first |
| Partner.SlicesAreFull | snap7/src/core/s7_partner.cpp:720-742 | every slice but the last fills its PDU |
| Partner.PartNumbers | snap7/src/core/s7_partner.cpp:752-763 | a block in one slice has number 0; the slices of any other count on from the last number, 1 after 254 |
| Partner.TSnap7Partner.GetNextByte | snap7/src/core/s7_partner.cpp:434-440 | the next part number |
| Partner.TSnap7Partner.AsBSend | snap7/src/core/s7_partner.cpp:1063-1083 | takes the block unless unlinked or busy |
| Partner.TSnap7Partner.BlockSend | snap7/src/core/s7_partner.cpp:700-824 | sends exactly the planned slices in order, all of them if every exchange succeeds, or up to the first that fails, with the error that tells how |
| Partner.TSnap7Partner.PickData | snap7/src/core/s7_partner.cpp:826-897 | copies the bytes of a slice behind those received before |
| Partner.TSnap7Partner.BlockRecv | snap7/src/core/s7_partner.cpp:899-938 | one slice further, or the block reported with number and size, or the error reported |
| Partner.FailureEndsBlock | snap7/src/core/s7_partner.cpp:826-938 | a PDU of another kind, or one whose answer could not be sent, ends the block with its error |
| Partner.Arrives | snap7/src/core/s7_partner.cpp:826-938 | after any number of slices the buffer starts with the beginning of the block |
| Partner.BlockArrivesIff | snap7/src/core/s7_partner.cpp:700-938 | the block, its size and its number arrive unchanged if and only if it has 1 to 65535 bytes; the receiver is then at rest again |
| Partner.SentBlockArrives | snap7/src/core/s7_partner.cpp:700-938 | a successful send, received in order, delivers the block; end mark on the last slice only; every PDU fits |
| ReadGroups.CalcByteSize | s7ioserver/s7config.cpp:71-82 | the least number of bytes that hold a value of the type, with two more for the lengths of a string |
| ReadGroups.GuardsDecide | s7ioserver/s7config.cpp:188-200 | the three split conditions say exactly whether a tag may join |
| ReadGroups.MergeTags | s7ioserver/s7config.cpp:181-225 | sorted tags are split into groups in order, each valid, each as long as the rules allow |
| ReadGroups.GroupCovers | s7ioserver/s7config.cpp:181-225 | every tag lies inside its read; groups of several have no large tag, span at most 256 bytes, no gap over 64 |
| ReadGroups.OnlySmallTogether | s7ioserver/s7config.cpp:150-200 | no group of several tags has a string or a tag of 128 bytes or more |
| ReadGroups.WhyApart | s7ioserver/s7config.cpp:188-200 | two reads of one area follow each other only for a gap over 64 bytes, a size over 256, or such a tag |
| ReadGroups.Sort | s7ioserver/s7config.cpp:176-179 | sorted by offset, the same tags |
| ReadGroups.BuildReadGroups | s7ioserver/s7config.cpp:154-227 | every tag is in exactly one group, of its own area and DB; groups end only where they must |

## Left out

- Block.LookupEnds: a board or database lookup is proved to end only when some slot is never used or holds the name; the live counter does not keep such a slot, since tombstones are never turned back, so this is a precondition of every board and table operation. `Heap.Block.LookupEndsExactly` says it is exact, and `BoardRuns.Serve` and `DatabaseRuns.Serve` that fewer creations than slots between clears suffice. `Store.TombstonesOnly` shows that the invariant alone does not suffice, and `BoardFull.NoSlotIsLeft` a run of one creation more that uses up the last such slot.
- Board.WriteBPart: a part that begins in front of the whole data area would overwrite the index; the model reports that and does not go on. Runs of operations (`BoardRuns`) contain part writes inside the tag only.
- Database.CreateDB: the source has no function that creates a database file; a blank one is taken as the start.
- Board.ReadB_String2: bytes behind the end of the mapped file are reported as a failure; what the machine does there is not modelled.
- RegistryTable.InsertTab: the name is not registered yet, which its only caller, loading, makes sure of.
- Queue.CreateQ: a queue has at least one slot.
- Queue.MulReadQ: start positions are not negative; a negative one is reduced with a remainder that may be negative, to a place before the ring.
- TSnap7Partner.AsBSend: blocks have at most 65536 bytes, the room of the transmit buffer.
- TSnap7Partner.BlockRecv: as PickData.
- RegistryTable.LoadQ: a handle stands for the mapped file; opening and mapping it are not part of the model.
- GetCrc: the buffer has fewer than 2^31 bytes, the range of the loop counter.
- Send.Next: `send` returns a positive count or finds no room; the branches for a lost peer, which drop the frame, are modelled for closed sockets only. A connection is closed only while its write handler is at rest, which runs in the same thread; its next use waits until the send thread has let go of it, as the rest period makes sure of. Nothing is said of what comes after bytes have gone to the socket of another connection.
- Delivery.Act: each piece of the callback of a delayed event is atomic; what two threads do to a list in one and the same moment is not modelled. Request replies other than those to POSTWAIT are not part of the sequence of replies; timer numbers are unbounded.
- CLogicSocket.BeginDelayed: events captured for an earlier user of a connection are delivered to its list by the number of the connection; their frames are dropped by the sequence number check in `Send`.
- CLogicSocket.Valid: the objects of the pool begin with no history; taking one into use again for another client clears its flags and is not among the handlers. `Delivery` starts from any such moment, with old events held and old timers pending.
- ProcessExpiredTimers: the clock does not go back, and clock plus delay and clock plus interval fit 64 bits. Timer numbers and sequence numbers do not wrap.
- TimerManager.Top: which of several timers with the same expiry comes first is left open, as the heap leaves it.
- PickData: slices whose length fields exceed the bytes carried or the buffer are outside the precondition.
- BlockSend: PDU lengths from 36 to 65535; below that the first slice has no room. The transport below the PDU, with fragments, is not modelled.
- ReadGroups.Sort: any arrangement sorted by offset would do, and the merge is proved for all of them; integer overflow of offsets is not modelled.
- Files, mapping, flushing, sockets, epoll, threads starting and stopping, logging and configuration files: plumbing around the logic.
- Lock-level races: every call of the storage library is one atomic step; dropping the board lock before taking the tag lock is not modelled.
- Moving queue pointers at will (`SetPtrQ`), unloading, flushing and ASCII queues: they reposition state freely or copy partial records.
- 32-bit overflow of record size times maximum count, and time stamps and address strings of records.
- Name trimming, byte swaps, S7 string coding, wrappers and the async client: true but easy.
