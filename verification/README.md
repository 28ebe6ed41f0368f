# A verified model of the emulator's algorithms and protocols

This project models, in Dafny, the self-contained algorithms and protocols of a Macintosh emulator and
proves what they promise. Each module follows one part of the emulator; where the original changes
state in place, the model is a method over arrays or a class, proved against a function, and the
properties are lemmas about that function.

- **Picture export** (`PackBits`, `Pict`): the PackBits row compressor with its raw fallback, and the
  PICT writer around it, with a decoder for both. Compressing and decoding is the identity, inside the
  size announced by the sizing call. The format is Apple PackBits (Technical Note TN1023) in a PICT
  file with opcode $009B (Inside Macintosh: Imaging With QuickDraw, Appendix A).
- **SCSI Manager** (`MacMemory`, `Tib`, `TibBytes`, `Scsi`): the interpreter for transfer instruction blocks, which
  are programs in Macintosh memory that rewrite themselves; its coalescing scatter/gather table; the
  phase machine; and the host side that gathers and scatters through that table.
- **Block devices** (`Arithmetic`, `BlockDevice`): byte-addressed reads and writes over a device that
  moves whole blocks. Writing turns out to lose a partial last block, because the copy into the block
  runs the wrong way; the exact set of transfers that are faithful is proved.
- **Serial driver** (`Serial`, `SerialProof`, `SerialProgress`, `SerialClose`, `SerialCalls`): the completion protocol as a
  state machine in which every store and every test of a variable shared by two tasks is a step, with all
  interleavings; what they keep, and which requests can still be queued.
- **External file system** (`ExtFs`, `ExtFsList`): the catalog that maps CNIDs to paths, as a linked list
  that is also a tree, with lookups, renames and moves.
- **Video modes and slot ROM** (`VideoModes`, `SlotRom`, `SlotRomLayout`, `SlotRomPatch`, `SlotRomChecksum`,
  `SlotRomReads`, `SlotRomBuild`):
  mode numbers and the enumeration of resolutions; the declaration ROM as a printer of lists with
  relative offsets and the Slot Manager's reader for it; its checksum, and the patches made by every
  mode switch.
- **Preferences** (`Prefs`, `PrefsLines`, `PrefsList`): the store, the text it is saved to, and the exact condition
  under which loading that text gives the same answers.
- **Time Manager** (`Timer`, `TimerSweep`, `TimerCalls`), **calendar** (`Calendar`), **queues and drive numbers** (`MacQueue`) and
  **pixel conversion** (`PixelConvert`).

`Machine` holds fixed-width numbers and `Buffers` the stores into byte buffers that several modules use.

Results where the code does less than its description:

- A device write loses the bytes of a partial last block and overwrites the caller's buffer with the old
  ones (`BlockDevice.FaithfulExactlyWithoutTail`, `BlockDevice.TailIsLost`).
- Coalescing changes the meaning of a scatter/gather table exactly when a merged length overflows 32 bits
  (`Tib.CoalescingPreservesMeaning`); two rounds of 2 GB leave a table that denotes nothing
  (`Tib.FourGigabytesVanish`).
- A PICT row length of 32768 or more collides with the flag bit it is stored with (`Pict.PictRoundTrip`).
- The done flag of an open serial port can be set without the pending flag, exactly between two stores of
  KillIO (`SerialProof.DoneImpliesPending`, `SerialProgress.DoneWithoutPending`).
- A deferred task of a closing serial port can be queued while its memory is being released, exactly when
  a request was pending at the call (`SerialClose.QueuedDuringCloseExactly`).
- A scatter/gather table of 2 GB or more passes the check of the transfer buffer
  (`Scsi.BufferSufficesExactly`).
- A file name that does not fit the 32-byte field gets a new CNID on every lookup (`ExtFs.FindAgain`), and
  children of a renamed directory keep the old path (`ExtFs.ChildrenStayBehind`). A path name that leads
  above the root's parent follows a null pointer (`ExtFs.WalkResolves`).
- Removing the first preferences item drops all of them (`PrefsList.RemovesJustTheItem`).
- The least 32-bit time value does not survive conversion (`Timer.ConversionKeepsMeaning`), and the
  big-endian 15-bit conversion loses a bit of green that its table keeps (`PixelConvert.BigEndianDiffers`).

Conventions: the answers of foreign calls (allocation, the device, the host file system, the clock, the
68k code run by a trap) are parameters or free choices. Addresses of Macintosh memory are taken modulo
2^32 and are identified with host addresses. Unsequenced uses of a variable in the row compressor are
read from left to right.

`dafny verify dfyconfig.toml` checks the whole project.

## Model
| member | source | states |
|---|---|---|
| `PackBits.UnpackConcat` | src/pict.c:98-117 | unpacking the concatenation of two well-formed packed sequences gives the concatenation of what each unpacks to |
| `PackBits.GreedyDecodes` | src/pict.c:82-120 | for every row, what the greedy run/literal loop emits unpacks to exactly the row |
| `PackBits.RawDecodes` | src/pict.c:130-138 | for every row, the raw fallback packets unpack to exactly the row |
| `PackBits.PrefixReadsBack` | src/pict.c:143-150 | the length prefix, one byte up to 250 bytes of row and two above, gives back the packed length |
| `PackBits.PackedRowRoundTrip` | src/pict.c:66-153 | with a buffer of at least the size the NULL call reports, compression never fails, fits, its prefix is the packed length and its body unpacks to the row, whichever path ran |
| `PackBits.GreedyCanOverflow` | src/pict.c:93-96 | the greedy form of some row is larger than the worst-case size, so the fallback is needed |
| `PackBits.RunPacket` | src/pict.c:82-99 | where two equal bytes follow, the packet is the count and the byte, and covers the whole run or 128 bytes of it |
| `PackBits.DifferentPacket` | src/pict.c:99-119 | everywhere else the packet holds bytes that differ from their neighbours and ends in front of two equal bytes, after 128 bytes, or with at most one byte left |
| `PackBits.EqualBytesPack` | src/pict.c:82-120 | n equal bytes take exactly 2 * ((n + 127) / 128) bytes |
| `PackBits.EqualRowAnswer` | src/pict.c:82-138 | a row of equal bytes is compressed exactly when that fits, with one length byte up to 250 bytes of row and two above |
| `PackBits.SmallRows` | src/pict.c:66-153 | the stored bytes of 128 and of 251 equal bytes, and the answers of the sizing call around the limits |
| `PackBits.FallbackAnswer` | src/pict.c:122-138 | the six bytes 1 2 2 3 4 4 are stored as one literal packet in a buffer of 8 and refused in one of 7 |
| `PackBits.ScanRun` | src/pict.c:86-91 | the run loop stops at the first different byte, the end, or 127 matches |
| `PackBits.ScanLiterals` | src/pict.c:101-106 | the literal loop stops in front of the next run, the end, or 127 literals |
| `PackBits.PackGreedily` | src/pict.c:82-120 | the in-place loop writes exactly the greedy packets, or reports that the next one does not fit |
| `PackBits.StoreUncompressed` | src/pict.c:130-138 | the in-place fallback loop writes exactly the raw packets |
| `PackBits.PackRow` | src/pict.c:82-152 | prefix and body in the buffer, or -1 exactly when neither form fits; nothing behind the buffer size changes |
| `PackBits.CompressUsingRLE` | src/pict.c:66-153 | the sizing call reports the worst-case size; the other call stores prefix and body or answers -1 exactly when neither form fits |
| `Pict.PlanesInterleave` | src/pict.c:237-242 | undoing the A, R, G, B plane order gives the pixels back |
| `Pict.ReadAllRows` | src/pict.c:232-250 | reading `height` length-prefixed packed rows and undoing the planes recovers every pixel and stops in front of what follows |
| `Pict.FileFits` | src/pict.c:181-190 | the file is never larger than the size the NULL call reports |
| `Pict.PictRoundTrip` | src/pict.c:155-267 | the whole file, every header field and the size word included, reads back as the image exactly when the row length keeps its top bit clear; the rows recover every pixel in any case |
| `Pict.PlanesOfPixel` | src/pict.c:237-242 | alpha, red, green and blue of pixel j stand at j, w+j, 2w+j and 3w+j of the row |
| `Pict.SmallBounds` | src/pict.c:181-185 | the sizing call answers 136 for an empty image, 142 for one pixel and 658 for two rows of 64 |
| `Pict.WriteHeader` | src/pict.c:196-230 | the header bytes in front of the rows |
| `Pict.SplitRow` | src/pict.c:237-242 | the row loop fills the four planes of a row |
| `Pict.WriteRows` | src/pict.c:232-250 | the row loop appends every packed row, or fails exactly when they do not fit |
| `Pict.ConvertRGBAToPICT` | src/pict.c:155-267 | sizing answer, the file in the buffer, or -1 exactly when the file does not fit |
| `Tib.AddSegMeaning` | src/scsi.cpp:120-132 | adding a segment to the table appends its addresses, merged or not, unless the merged 32-bit length overflows |
| `Tib.CoalescingPreservesMeaning` | src/scsi.cpp:90-163 | on every run of every self-modifying program the table denotes the segments of all executed INC and NOINC opcodes in order, if and only if adding those segments to the table overflows no 32-bit entry length |
| `Tib.TotalIsSum` | src/scsi.cpp:120-132 | the running total is the sum of the entry lengths modulo 2^32 and the table keeps within 1024 entries, after any number of opcodes |
| `Tib.StraightStep` | src/scsi.cpp:115-163 | an opcode of a program that does not overwrite itself elsewhere falls through, keeping the program, unless the table is full |
| `Tib.LoopUnrolls` | src/scsi.cpp:142-146 | a straight-line body followed by LOOP with counter n runs exactly n copies of the body and leaves the counter 0; counter 0 stands for 2^32 |
| `Tib.TransferProgram` | src/scsi.cpp:116-152 | INC; LOOP; STOP from an empty table gives one merged entry, the INC pointer behind the n*len bytes and the counter 0; the entry denotes those bytes if and only if they are less than 4 GB |
| `Tib.FourGigabytesVanish` | src/scsi.cpp:116-152 | two rounds of 2 GB end without an error, and the table denotes nothing |
| `TibBytes.TransferBytes` | src/scsi.cpp:116-152 | the words 1, 5 and 7 in memory with their operands: counter rounds of len bytes from ptr on, in numbers |
| `TibBytes.MovesBytes` | src/scsi.cpp:116-132 | what the words 1 and 2 do to the table, the total and memory, byte by byte, and when they end with -108 |
| `TibBytes.AddsBytes` | src/scsi.cpp:134-136 | the word 3 adds its second operand to the longword at the first, and changes no other byte |
| `TibBytes.CopiesBytes` | src/scsi.cpp:138-140 | the word 4 copies the longword at its first operand to the second, and changes no other byte |
| `TibBytes.LoopsBytes` | src/scsi.cpp:142-146 | the word 5 counts down in memory and goes on at its first operand, or behind it at 0 |
| `TibBytes.EndsBytes` | src/scsi.cpp:148-162 | the word 6 does nothing, 7 ends with 0, 8 with 6 and any other word with 4 |
| `TibBytes.ByteOfEntry` | src/AmigaOS-4/scsi_amiga.cpp:233-243 | byte k of an entry is the one k bytes behind its address, modulo 2^32 |
| `TibBytes.StoresWord` | src/scsi.cpp:313-320 | a status word stands in memory high byte first and changes no other byte |
| `Scsi.GatherAfterScatter` | src/AmigaOS-4/scsi_amiga.cpp:233-243 | what was scattered is gathered back, for every content, exactly when no address occurs twice |
| `Scsi.ScatterElsewhere` | src/AmigaOS-4/scsi_amiga.cpp:279-288 | scattering changes no address outside the segments |
| `Scsi.ScatterLast` | src/AmigaOS-4/scsi_amiga.cpp:279-288 | an address holds the last byte sent to it |
| `Scsi.ScsiManager.SCSIReset` | src/scsi.cpp:170-179 | bus free, table empty |
| `Scsi.ScsiManager.SCSIGet` | src/scsi.cpp:186-198 | arbitration only from the free bus; flushes the table; the sum invariant holds |
| `Scsi.ScsiManager.SCSISelect` | src/scsi.cpp:205-226 | selection only after arbitration; bad id, absent target and success lead to the stated phase |
| `Scsi.ScsiManager.SCSICmd` | src/scsi.cpp:233-272 | a command only after selection and only of 6, 10 or 12 bytes, handed to the host with the LUN of its second byte; other calls change nothing |
| `Scsi.ScsiManager.AddSegment` | src/scsi.cpp:120-132 | the in-place table update is the value-level one |
| `Scsi.ScsiManager.ExecTib` | src/scsi.cpp:90-163 | the in-place interpreter is the value-level run: memory, table and total |
| `Scsi.ScsiManager.SCSITransfer` | src/scsi.cpp:279-303 | a TIB is run in the data phase only, and the total stays the sum of the entry lengths |
| `Scsi.ScsiManager.GatherSegments` | src/AmigaOS-4/scsi_amiga.cpp:233-243 | the gather loop fills exactly the first bytes of the buffer with the denoted bytes, or leaves the buffer exactly when the table is longer than it |
| `Scsi.ScsiManager.ScatterSegments` | src/AmigaOS-4/scsi_amiga.cpp:278-289 | the scatter loop delivers exactly those bytes to the denoted addresses, or leaves the buffer exactly when the table is longer than it |
| `Scsi.BufferSufficesExactly` | src/AmigaOS-4/scsi_amiga.cpp:160-173 | for every buffer and every answer of the allocator, agreement of try_buffer to the total makes room for the whole table, exactly for tables below 2 GB |
| `Scsi.TotalExactly` | src/scsi.cpp:131-131 | the 32-bit total is the sum of the entry lengths exactly for tables below 4 GB |
| `Scsi.TwoGigabytesPass` | src/scsi.cpp:116-152 | INC of 2 GB and STOP: the interpreter accepts it and try_buffer agrees with any buffer |
| `Scsi.ScsiManager.TryBuffer` | src/AmigaOS-4/scsi_amiga.cpp:160-173 | agreement, reallocation and the length of the buffer follow the signed comparison |
| `Scsi.ScsiManager.SendCommand` | src/AmigaOS-4/scsi_amiga.cpp:218-291 | when a copy leaves the buffer; otherwise, on a write the device gets the denoted bytes, on a successful read memory gets the buffer at the denoted addresses, and else memory is unchanged |
| `Scsi.ScsiManager.SCSIComplete` | src/scsi.cpp:310-326 | message and status words, end of the transfer, the bus freed and the sum invariant kept, unless a copy leaves the buffer, and exactly when that happens |
| `BlockDevice.TailExactly` | src/AmigaOS-4/sys_amigaos4.cpp:466-508 | a transfer has no partial last block exactly when it ends on a block boundary or inside its partial first block |
| `BlockDevice.FaithfulExactlyWithoutTail` | src/AmigaOS-4/sys_amigaos4.cpp:507-521 | Sys_write leaves on the device what a byte-array write would, for every content, exactly for transfers without a partial last block |
| `BlockDevice.TailIsLost` | src/AmigaOS-4/sys_amigaos4.cpp:510-519 | a concrete write whose last block is lost: the copy at line 515 runs from the block to the caller's buffer |
| `BlockDevice.ReadAfterWrite` | src/AmigaOS-4/sys_amigaos4.cpp:359-525 | reading the range back returns what the caller's buffer holds after the write; that is what was to be written exactly when the tail already had that content |
| `BlockDevice.RoundDown` | src/AmigaOS-4/sys_amigaos4.cpp:410-410 | masking with the complement of the block size minus one rounds down to whole blocks |
| `BlockDevice.FileHandle.SendIoRequest` | src/AmigaOS-4/sys_amigaos4.cpp:338-351 | a request moves exactly its bytes or changes nothing |
| `BlockDevice.FileHandle.SysRead` | src/AmigaOS-4/sys_amigaos4.cpp:359-435 | all requests are aligned whole blocks; on success exactly the requested bytes are delivered, and nothing behind them changes |
| `BlockDevice.FileHandle.SysWrite` | src/AmigaOS-4/sys_amigaos4.cpp:443-525 | all requests are aligned whole blocks; on success device and buffer are as stated above; when any request fails at most a prefix of the bytes in front of the tail is written and no other byte of the device changes |
| `BlockDevice.FileHandle.WriteHead` | src/AmigaOS-4/sys_amigaos4.cpp:466-490 | read-modify-write of the first block writes just the requested bytes |
| `BlockDevice.FileHandle.WriteTail` | src/AmigaOS-4/sys_amigaos4.cpp:508-521 | the device keeps the last block; the caller's buffer gets its bytes |
| `SerialProof.StepKeeps` | src/AmigaOS-4/serial_amiga.cpp:704-830 | every step of the emulator task, of either serial task, of the device and of the interrupt handler keeps the protocol invariant |
| `SerialProof.Reachable` | src/serial.cpp:51-139 | the invariant holds after every interleaving |
| `SerialProof.CompletionsAreExact` | src/AmigaOS-4/serial_amiga.cpp:756-828 | in every interleaving a request is queued or discarded only after it was accepted and only once, and a queued deferred task holds its own request and its own answer: the result is 0, -89 for an error the settings at that store select, or -90 for a break on a serial port; ioActCount and serdtResult were written before |
| `SerialProof.ResultReports` | src/AmigaOS-4/serial_amiga.cpp:577-615 | the result of every device error, on a serial and a parallel port, for every mask |
| `SerialCalls.StoresAnswer` | src/AmigaOS-4/serial_amiga.cpp:800-828 | count, result, done and flag are stored in this order, the result with the mask and kind of the port at that moment |
| `SerialCalls.SettingsChange` | src/AmigaOS-4/serial_amiga.cpp:157-157 | the mask changes by its control call (line 473) and is cleared by open; nothing else changes it |
| `SerialCalls.PortKinds` | src/AmigaOS-4/serial_amiga.cpp:585-586 | in every run a port stays serial or parallel as it was made |
| `SerialCalls.PrimeIsAccepted` | src/serial.cpp:117-139 | a Prime on an open port without a request is accepted and sent to the serial task; any other does nothing |
| `SerialCalls.OpenOpens` | src/serial.cpp:51-109 | Open on a closed port clears the four flags and starts the task, and the port is open once the records are made; on an open port it does nothing |
| `SerialCalls.CloseForgets` | src/serial.cpp:205-222 | after Close the port is closed, and its pending requests are discarded |
| `SerialCalls.KillCancels` | src/AmigaOS-4/serial_amiga.cpp:756-763 | KillIO takes both requests from the device, clears all four flags, discards what was pending and leaves the other port alone |
| `SerialCalls.DeviceAnswers` | src/AmigaOS-4/serial_amiga.cpp:800-815 | the device answers the request it has, with any outcome |
| `SerialProof.EndsOnce` | src/serial.cpp:231-243 | after a request was queued or discarded nothing is recorded for it again, so KillIO or Close and a completion exclude each other |
| `SerialProof.NothingForgotten` | src/serial.cpp:117-139 | every accepted request has been queued or discarded unless it is the one still pending on the open port |
| `SerialProof.DoneImpliesPending` | src/serial.cpp:231-243 | on an open port with done set, pending is set exactly when KillIO is not between the stores that clear the two flags |
| `SerialProgress.DoneWithoutPending` | src/AmigaOS-4/serial_amiga.cpp:756-763 | a run to an open port with done set and pending clear: KillIO clears pending first, so done implies pending fails there |
| `SerialProgress.CanBeQueuedExactly` | src/AmigaOS-4/serial_amiga.cpp:704-830 | in every reachable state, a request that was accepted and has not ended can still be queued exactly when no KillIO is on its way and the serial task runs or has set done: the tasks never come to a standstill, and nothing cancelled is queued |
| `SerialProgress.ChoiceIsNearer` | src/serial.cpp:51-139 | from every such state, whatever the tasks are doing, the next action of a fixed schedule queues the request or lowers a rank, without ending a trap |
| `SerialProgress.Arrives` | src/serial.cpp:231-251 | that schedule queues the request, and SerialClose stays in progress if it was |
| `SerialProgress.LostForGood` | src/AmigaOS-4/serial_amiga.cpp:756-763 | a request that KillIO or the end of the task has cut off stays so, or is discarded, in every continuation |
| `SerialProof.NoLostCompletion` | src/emul_op.cpp:479-482 | while pending and done are both set on an open port, the interrupt flag is set, or the port's task is about to set it, or the handler has cleared it and not yet passed the channel |
| `SerialProof.QuietMeansDelivered` | src/AmigaOS-4/main_amiga.cpp:505-527 | when no handler runs, the flag is clear and no task is about to set it, no completion waits |
| `SerialProof.RequestBlockIsFree` | src/AmigaOS-4/serial_amiga.cpp:765-792 | the serial task sends an IORequest only while it is not in use, for a request that is pending and not done |
| `SerialClose.QueuedDuringCloseExactly` | src/serial.cpp:214-220 | after SerialClose is called in any reachable state, the deferred task of a channel can be queued while its record is being disposed of exactly when a request is pending on the channel at the call |
| `SerialClose.QueuedWhileDisposed` | src/serial.cpp:214-220 | a run in which that happens |
| `SerialProof.HandlerOwn` | src/serial.cpp:231-251 | each test and store of the handler keeps the invariant of its channel |
| `SerialProof.KillOwn` | src/AmigaOS-4/serial_amiga.cpp:756-763 | each step of KillIO keeps the invariant, discarding a request at the store that clears pending |
| `SerialProof.FinishStores` | src/AmigaOS-4/serial_amiga.cpp:800-828 | the stores for a reply keep the invariant; done is set after count and result |
| `ExtFs.StartsGood` | src/extfs.cpp:362-378 | the catalog starts good, with the root's parent as 1, the root as 2 and 16 as the next id |
| `ExtFs.FindKeeps` | src/extfs.cpp:195-215 | a lookup keeps ids unique and below the counter, parent ids right and (parent, name) unique, exactly when the item is found, or the 32-bit counter does not wrap and the name fits or no sibling has the cut name |
| `ExtFs.FindPaths` | src/extfs.cpp:195-215 | a lookup changes no CNID's path |
| `ExtFs.FindsChild` | src/extfs.cpp:195-245 | a lookup gives the item with the path of the directory's child of that name |
| `ExtFs.FindAgain` | src/extfs.cpp:195-215 | a second lookup finds the item the first made, exactly when the name fits its field |
| `ExtFs.MakesItem` | src/extfs.cpp:204-214 | an item that is made has the next id, its directory's id and the first 32 characters of the name, at the end of the list |
| `ExtFs.PathsDiffer` | src/extfs.cpp:229-245 | two items never denote the same path |
| `ExtFs.CnidsDifferInPath` | src/extfs.cpp:179-245 | two CNIDs never denote the same path |
| `ExtFs.RenameKeeps` | src/extfs.cpp:1962-1969 | the id swap keeps every invariant of the catalog |
| `ExtFs.RenameTransposes` | src/extfs.cpp:1962-1969 | a rename or move acts on the map from CNIDs to paths as the transposition of the two ids and changes no other CNID |
| `ExtFs.RenameBack` | src/extfs.cpp:1962-1969 | swapping again restores the catalog |
| `ExtFs.ChildrenStayBehind` | src/extfs.cpp:1962-1969 | what was below a renamed directory keeps the path under the old name |
| `ExtFs.WalkResolves` | src/extfs.cpp:862-911 | walking a path name from any item ends at the item with the path the name means, fails exactly for names that lead above the root, and follows the null parent exactly for names that lead above the root's parent |
| `ExtFs.NeverAboveNowhere` | src/extfs.cpp:870-875 | no path name does the latter, exactly from the items on the volume |
| `ExtFs.RunKeeps` | src/extfs.cpp:195-262 | a run of lookups, renames and moves keeps the catalog good exactly as long as the 32-bit counter does not run out, and then no item's path changes |
| `ExtFsList.Catalog.FindById` | src/extfs.cpp:179-188 | the list search finds the item with the id, or none |
| `ExtFsList.Catalog.FindItem` | src/extfs.cpp:195-215 | the list after find_fsitem is the value-level catalog with the item found or made |
| `ExtFsList.Catalog.GetPath` | src/extfs.cpp:229-245 | the recursion terminates and leaves the item's path |
| `ExtFsList.Catalog.SwapParentIds` | src/extfs.cpp:252-262 | the loop exchanges the two parent ids in every item and nothing else |
| `ExtFsList.Catalog.RenameItem` | src/extfs.cpp:1954-1969 | ids are swapped exactly when the name is free and the host renamed the file |
| `ExtFsList.Catalog.MoveItem` | src/extfs.cpp:1998-2016 | the same for a move, with the target looked up after the host moved the file |
| `VideoModes.AppleModesOrdered` | src/video.cpp:93-100 | supported depths have different numbers in the order of the depths |
| `VideoModes.AppleModesInjective` | src/video.cpp:93-100 | no two supported depths share a number |
| `VideoModes.AppleModesConsecutive` | src/video.cpp:93-100 | the numbers from 0x80 on are used without a gap |
| `VideoModes.FindsDepth` | src/video.cpp:160-168 | searching with a supported depth's number finds the first mode of that depth and resolution |
| `VideoModes.FindInverts` | src/video.cpp:88-168 | find_mode gives every available mode back from its number and resolution exactly when no two modes agree in both |
| `VideoModes.EnumeratesAll` | src/video.cpp:825-865 | iterating GetNextResolution from 0xfffffffe names every supported id from 0x80 to 0xff once, ascending, and then says there are no more, exactly when there is such an id |
| `VideoModes.Around` | src/video.cpp:835-840 | counting up from an id around the 32-bit range meets a supported id, and no supported one before it |
| `VideoModes.NextAnswers` | src/video.cpp:829-854 | the answers for 0, for an unsupported id, for 0xfffffffe and for a supported id, in numbers |
| `VideoModes.MonitorDesc.constructor` | src/video.cpp:88-104 | the table of numbers, and the default mode or the invalid mode |
| `VideoModes.MonitorDesc.FindMode` | src/video.cpp:160-168 | the loop finds the first matching mode, or the invalid mode |
| `VideoModes.MonitorDesc.SupportsDepth` | src/video.cpp:129-138 | whether a mode has the depth |
| `VideoModes.MonitorDesc.SupportsResolution` | src/video.cpp:145-153 | whether a mode has the resolution |
| `VideoModes.MonitorDesc.FirstResolution` | src/video.cpp:835-840 | the loop for 0xfffffffe ends at the first supported id met from 0x80 on, around the 32-bit range, for every display with a mode |
| `VideoModes.MonitorDesc.GetNextResolution` | src/video.cpp:825-855 | the current resolution for 0, and for every other 32-bit id the loops answer with the next supported id, counting in 32 bits |
| `SlotRom.PartAt` | src/slot_rom.cpp:108-227 | each structure is printed where the captured index says, whatever follows |
| `SlotRom.EvenStarts` | src/slot_rom.cpp:92-106 | every structure starts at an even address |
| `SlotRom.OffsetLeadsBack` | src/slot_rom.cpp:53-60 | a signed 24-bit self-relative offset leads to the target it was made for |
| `SlotRom.ListReadsBack` | src/slot_rom.cpp:53-76 | every printed list reads back up to its end mark as the ids, data and targets it was built with |
| `SlotRom.FindsPart` | src/slot_rom.cpp:53-76 | searching a printed list with ascending ids leads from an id to the structure it was built for |
| `SlotRom.ReplacePart` | src/video.cpp:380-399 | exchanging one number or parameter block changes just its bytes |
| `SlotRomLayout.RomGood` | src/slot_rom.cpp:229-446 | every list of the ROM has strictly ascending ids below the end mark and refers backwards only |
| `SlotRomLayout.ModeItemsAre` | src/slot_rom.cpp:213-224 | the mode entries of a display carry the numbers from 0x80 on, each for its own depth |
| `SlotRomPatch.HeaderReads` | src/slot_rom.cpp:440-446 | the format block leads to the sResource directory and its length field is the size of the ROM |
| `SlotRomPatch.DirectoryLeads` | src/slot_rom.cpp:431-438 | the directory leads to the board, CPU and Ethernet sResources |
| `SlotRomPatch.DisplayEntry` | src/slot_rom.cpp:434-435 | the directory leads from each slot id to that display's list |
| `SlotRomPatch.DisplayLeads` | src/slot_rom.cpp:178-227 | each display's list leads to its frame buffer base and, for every supported depth, to that depth's parameter block |
| `SlotRomReads.BoardReads` | src/slot_rom.cpp:241-271 | type, name, id and vendor information of the board, from the directory on |
| `SlotRomReads.DisplayReads` | src/slot_rom.cpp:168-227 | type, name, driver, ids, frame buffer base and length, gamma table and attributes of a display |
| `SlotRomReads.ModeReads` | src/slot_rom.cpp:158-166 | a mode number leads to one page, the device type and the block of its depth |
| `SlotRomReads.ParmsInNumbers` | src/slot_rom.cpp:108-156 | every field of a parameter block, for all six depths |
| `SlotRomReads.CpuReads` | src/slot_rom.cpp:358-376 | the entries of the CPU |
| `SlotRomReads.EtherReads` | src/slot_rom.cpp:378-428 | the entries of the Ethernet card |
| `SlotRomReads.FormatReads` | src/slot_rom.cpp:441-449 | length, format, test pattern and byte lanes of the format block |
| `SlotRomReads.TextsRead` | src/slot_rom.cpp:90-106 | a text ends in a zero byte, a Pascal text starts with its length, and both end at an even address |
| `SlotRomReads.WordsRead` | src/slot_rom.cpp:86-90 | a piece of words has two bytes for each, the high byte first |
| `SlotRomReads.PiecesFollow` | src/slot_rom.cpp:241-262 | the pieces of a literal stand one behind the other |
| `SlotRomReads.RowLength` | src/video.cpp:106-127 | the row length of a depth: of the first mode with it, or the bits of a row in whole bytes |
| `SlotRomReads.SwitchReads` | src/video.cpp:351-402 | after a switch the entries of the display and its mode number lead to the new mode's row length, size and depth, and to the new frame buffer base |
| `SlotRomPatch.ChecksumStored` | src/slot_rom.cpp:461-478 | the stored checksum is the rotate-and-add sum of the image with the field taken as zero |
| `SlotRomPatch.ChecksumForgets` | src/slot_rom.cpp:461-478 | the new checksum does not depend on the old one |
| `SlotRomChecksum.ZerosTurn` | src/slot_rom.cpp:469-473 | k zero bytes behind any data turn the sum left by k bits |
| `SlotRomChecksum.ZerosKeep` | src/slot_rom.cpp:469-473 | 32 zero bytes leave the sum as it is |
| `SlotRomChecksum.ByteAdds` | src/slot_rom.cpp:469-473 | a byte adds its value to the turned sum, in 32 bits |
| `SlotRomChecksum.TopBitComesRound` | src/slot_rom.cpp:471-471 | the byte 0x80 and 25 zeros sum to 1 |
| `SlotRomChecksum.StoresSum` | src/slot_rom.cpp:461-478 | the stored sum is that of the image with four zero bytes in the field, and no other byte changes |
| `SlotRomChecksum.ImagesApart` | src/slot_rom.cpp:461-478 | two images that differ in one byte outside the field store different checksums |
| `SlotRomPatch.PatchIsParms` | src/video.cpp:394-399 | the six patched bytes make the block the one VModeParms emits for the new geometry |
| `SlotRomPatch.FoundModeMatches` | src/video.cpp:112-168 | for every mode find_mode gives, that is the geometry VModeParms uses for the display in the mode |
| `SlotRomPatch.SwitchKeeps` | src/video.cpp:351-402 | switching to the mode find_mode gives keeps lists, checksum and the parameter block of every display's current depth |
| `SlotRomPatch.SwitchHappens` | src/video.cpp:503-506 | every switch whose mode find_mode finds is carried out |
| `SlotRomPatch.SwitchesKeep` | src/video.cpp:351-402 | so does any sequence of calls that ask for a mode, whatever modes the displays have |
| `SlotRomPatch.FewMonitors` | src/slot_rom.cpp:40-40 | a ROM that fits the 4096-byte buffer holds at most 13 displays, so slot ids neither wrap nor meet those of CPU and Ethernet |
| `SlotRomPatch.OneDisplayFits` | src/slot_rom.cpp:40-40 | the ROM of any one display, apart from its literals, leaves at least 1600 bytes of the buffer for them |
| `SlotRomPatch.SlotRomStaysGood` | src/slot_rom.cpp:229-478 | every ROM that fits the buffer, after any mode switches, has all of these properties |
| `SlotRomPatch.ChecksumSlotRom` | src/slot_rom.cpp:461-478 | the in-place loop stores that checksum |
| `SlotRomPatch.SwitchMode` | src/video.cpp:380-402 | the patches of switch_mode, found through the ROM itself, and the checksum |
| `SlotRomBuild.Srom.Text` | src/slot_rom.cpp:92-97 | String: text, end mark, padding to an even address |
| `SlotRomBuild.Srom.PascalText` | src/slot_rom.cpp:99-106 | PString: length, text, padding; the stored end mark is stepped back over |
| `SlotRomBuild.Srom.Offs` | src/slot_rom.cpp:53-60 | appends the list entry for an earlier structure |
| `SlotRomBuild.Srom.VMonitor` | src/slot_rom.cpp:178-227 | appends the fifteen structures of a display and returns where its list starts |
| `SlotRomBuild.Srom.PrintAll` | src/slot_rom.cpp:248-446 | the emitters in their order fill the buffer with exactly the planned structures |
| `SlotRomBuild.InstallSlotRom` | src/slot_rom.cpp:229-455 | the finished ROM is the printed plan with its checksum |
| `Prefs.FindsValue` | src/prefs.cpp:273-287 | finding the index-th item is looking into the list of the keyword's values |
| `Prefs.ValuesReplaced` | src/prefs.cpp:289-315 | replacing changes the first value of its keyword and type, or adds one, and nothing else |
| `Prefs.NumberReadsBack` | src/prefs.cpp:409-409 | a printed 32-bit number reads back |
| `Prefs.LineReadsBack` | src/prefs.cpp:386-433 | a written line is read as the setting it was written for |
| `Prefs.LoadsLine` | src/prefs.cpp:385-393 | fgets takes a written line as one line up to 255 characters, where the newline is left to the next call and skipped |
| `Prefs.LoadsEntries` | src/prefs.cpp:382-436 | loading a saved text makes the saved settings in their order |
| `PrefsLines.LineMeans` | src/prefs.cpp:382-441 | a keyword, white space of any kind and a value add a string, or replace the first value; other keywords keep theirs |
| `PrefsLines.LineIgnored` | src/prefs.cpp:395-420 | comments, empty lines and unknown keywords change nothing |
| `PrefsLines.NumberMeans` | src/prefs.cpp:413-413 | a sign and the digits up to the first other character, or the nearest 32-bit number |
| `PrefsLines.PrintedNumber` | src/prefs.cpp:465-465 | a number is printed as its digits without a leading zero, behind a minus sign if it is negative |
| `PrefsLines.UnsetAnswers` | src/prefs.cpp:322-347 | what is answered for a keyword without a value: no string, false and 0 |
| `PrefsLines.LongLine` | src/prefs.cpp:384-385 | a line of more than 255 characters is taken in pieces of 255 |
| `PrefsLines.LastLine` | src/prefs.cpp:384-392 | the last line counts without a newline |
| `PrefsLines.TextOfExample` | src/prefs.cpp:444-471 | the text of a small store, character by character |
| `Prefs.LoadCarried` | src/prefs.cpp:382-436 | whatever the text, every loaded string fits on a line and a single-valued keyword gets at most one |
| `Prefs.RoundTripExactly` | src/prefs.cpp:382-471 | saving and loading into an empty store keeps every answer for known keywords exactly when every string fits on its line and single-valued keywords are held at most once |
| `PrefsList.RemovesJustTheItem` | src/prefs.cpp:354-375 | removing takes just that value from what later finds can give, exactly when the item is not the first of the list, or is the only one |
| `PrefsList.PrefsItems.AddData` | src/prefs.cpp:233-251 | the node is appended at the end of the list |
| `PrefsList.PrefsItems.FindNodeOf` | src/prefs.cpp:273-287 | the list search finds the index-th item of the keyword and type |
| `PrefsList.PrefsItems.ReplaceItem` | src/prefs.cpp:289-315 | replacement in place, or a new node at the end |
| `PrefsList.PrefsItems.PrefsRemoveItem` | src/prefs.cpp:354-375 | unlinks the item; at the head of the list it drops the whole list |
| `PrefsList.PrefsItems.LoadPrefsFromStream` | src/prefs.cpp:382-436 | the loop makes the store the value-level loading gives |
| `PrefsList.PrefsItems.SavePrefsToStream` | src/prefs.cpp:443-471 | the loops write the value-level text |
| `PrefsList.CompactArguments` | src/prefs.cpp:112-123 | the arguments not taken are kept in order behind the program name |
| `Timer.ConversionKeepsMeaning` | src/AmigaOS-4/timer_amigaos4.cpp:109-138 | Macintosh to host time and back keeps the microseconds of every 32-bit value except the least |
| `Timer.StepKeeps` | src/timer.cpp:176-319 | every insertion, removal, priming, look of an interrupt and reset keeps the invariant |
| `Timer.OneDescriptorPerTask` | src/timer.cpp:70-103 | in every run a task has at most one descriptor in use |
| `Timer.HistoryIsGood` | src/timer.cpp:232-319 | in every run, with callbacks free to insert, remove and prime, a task fires only when armed and after its wakeup time |
| `TimerSweep.InterruptCallsTheDue` | src/timer.cpp:299-319 | in every reachable state, an interrupt whose loop runs undisturbed takes 65 looks, calls every due task exactly once and no other, leaves the called ones inactive and changes nothing else |
| `TimerSweep.DueExactly` | src/timer.cpp:299-306 | a task is due exactly when it was primed, and not fired, inserted or removed since, and that wakeup time has passed |
| `TimerSweep.ActiveExactly` | src/timer.cpp:280-282 | a task with a descriptor is active exactly when it is armed |
| `TimerSweep.SixtyFour` | src/timer.cpp:62-63 | there are always 64 descriptors |
| `Timer.FiresOncePerPrime` | src/timer.cpp:294-319 | between two firings a task was primed |
| `Timer.NoDrift` | src/timer.cpp:232-287 | over any run, an extended task primed with tmWakeUp zero stays due at the time of that call plus its delay plus the delays of all later calls, until it is inserted anew or removed, tmWakeUp is cleared, or the emulator is reset |
| `Timer.RemainingTime` | src/timer.cpp:206-217 | RmvTime of a task not yet due stores the remaining time, to the microsecond or in whole milliseconds |
| `TimerCalls.InsertsType` | src/timer.cpp:179-179 | InsTime keeps the low 13 bits of qType, takes bits 14 and 13 from the trap word and clears bit 15 |
| `TimerCalls.InsertsExactly` | src/timer.cpp:176-188 | a new task gets the first free descriptor, if there is one |
| `TimerCalls.PrimesExactly` | src/timer.cpp:232-287 | wakeup time, tmWakeUp and active bit after PrimeTime, in numbers |
| `TimerCalls.PrimesNothing` | src/timer.cpp:236-241 | PrimeTime of a task that is not inserted does nothing |
| `TimerCalls.RemovesExactly` | src/timer.cpp:195-225 | descriptor, active bit and tmCount after RmvTime, in numbers |
| `TimerCalls.RemovesNothing` | src/timer.cpp:199-204 | RmvTime of a task that is not inserted does nothing |
| `TimerCalls.ResetsExactly` | src/timer.cpp:164-169 | a reset frees all descriptors and touches no task |
| `Timer.TimeManager.AllocDesc` | src/timer.cpp:70-80 | the first free descriptor is taken, or none |
| `Timer.TimeManager.Find` | src/timer.cpp:97-103 | the first descriptor in use for the task |
| `Timer.TimeManager.Insert` | src/timer.cpp:176-188 | inserts the task once, clears its active bit and takes the trap bits, as the state machine does |
| `Timer.TimeManager.Remove` | src/timer.cpp:195-225 | deactivates the task, stores the remaining time and frees its descriptor, as the state machine does; nothing happens without a descriptor |
| `Timer.TimeManager.PrimeTask` | src/timer.cpp:232-287 | sets the wakeup time from the last one or from now and activates the task, as the state machine does |
| `Timer.TimeManager.LookAt` | src/timer.cpp:299-318 | one round of the interrupt loop deactivates and reports exactly a task that is in use, active and past its wakeup time |
| `Calendar.LeapDayFormula` | src/macos_util.cpp:139-146 | for every year from 1904 on the leap-day formula gives the sum of the Gregorian year lengths |
| `Calendar.SecondsInOrder` | src/macos_util.cpp:131-148 | calendar order is the order of the seconds |
| `Calendar.MacTimeInOrder` | src/macos_util.cpp:131-148 | until 32 bits overflow the result is strictly increasing in calendar order |
| `Calendar.LeapSecondRepeats` | src/macos_util.cpp:147-147 | a leap second has the time of the second after it |
| `Calendar.Overflow` | src/macos_util.cpp:146-147 | the second at which 32 bits overflow |
| `MacQueue.MacHeap.EnqueueMac` | src/macos_util.cpp:40-50 | the element is appended to the queue in memory and no other word changes |
| `MacQueue.IsDriveNumberFree` | src/macos_util.cpp:57-67 | whether no drive in the queue has the number |
| `MacQueue.FindFreeDriveNumber` | src/macos_util.cpp:69-74 | the least free number from the start on; the search ends |
| `PixelConvert.ConvertDirect` | src/AmigaOS-4/video_convert.cpp:172-190 | the direct loops unpack the row pixel by pixel (also lines 222-250) |
| `PixelConvert.MaskedByteIs` | src/AmigaOS-4/video_convert.cpp:172-190 | the masks and shifts of the direct loops take the pixels of a byte (also lines 222-250) |
| `PixelConvert.MaskedWordIs` | src/AmigaOS-4/video_convert.cpp:124-131 | the masks and shifts of the 2-bit table loop, on the 16-bit word, give the pixels of the direct loop for the word's two bytes |
| `PixelConvert.InitLookup1` | src/AmigaOS-4/video_convert.cpp:72-101 | every entry of the byte table unpacks its byte |
| `PixelConvert.InitLookupWords` | src/AmigaOS-4/video_convert.cpp:103-170 | the wraparound loops fill all 65536 entries, each with the pixels of its word |
| `PixelConvert.ConvertTable1` | src/AmigaOS-4/video_convert.cpp:291-301 | the 1-bit table conversion unpacks the row |
| `PixelConvert.ConvertTableWords` | src/AmigaOS-4/video_convert.cpp:303-325 | the 2- and 4-bit table conversions unpack all whole words of the row |
| `PixelConvert.TableAgreesExactly` | src/AmigaOS-4/video_convert.cpp:222-325 | table and direct conversion give the same bytes for every row and output exactly when fewer pixels than a byte holds are left over from the last whole word |
| `PixelConvert.CarriesColours` | src/AmigaOS-4/video_convert.cpp:509-511 | the 15-bit masks and shift carry red, twice green and blue into 5-6-5 |
| `PixelConvert.SwapIs` | src/AmigaOS-4/video_convert.cpp:513-513 | the masks and shifts of the last line exchange the two bytes |
| `PixelConvert.LittleEndianReads` | src/AmigaOS-4/video_convert.cpp:509-513 | the value the masks and shifts give is the one 16-bit value that reads as red, twice green and blue when its bytes are taken in the opposite order |
| `PixelConvert.BigEndianDiffers` | src/AmigaOS-4/video_convert.cpp:517-531 | the big-endian direct loop agrees with its table exactly when green is even |
| `PixelConvert.InitLookup15Le` | src/AmigaOS-4/video_convert.cpp:534-552 | every entry below 65535 reads, in the opposite byte order, as the colours of its index |
| `PixelConvert.Convert15Le` | src/AmigaOS-4/video_convert.cpp:495-515 | every pixel stored reads, in the opposite byte order, as the colours of the source pixel; nothing else changes |
| `PixelConvert.ConvertTable15Le` | src/AmigaOS-4/video_convert.cpp:572-580 | the table loop stores what the direct loop does, up to the first pixel 65535, which is read from behind the table |

## Left out
- PackBits.CompressUsingRLE: requires the buffer size to be below 64K, as every caller passes it, because the output cursor is a 16-bit variable.
- Pict.ConvertRGBAToPICT: requires the worst-case size of a row to fit in 16 bits (width up to about 16000), because the compressor is called with it; 32-bit overflow of a pixel index or of the announced file size is not modelled.
- Pict.PictRoundTrip: the reader is a model of the file as written, not of QuickDraw; padding of the picture data to a word boundary is not part of it, as the writer does none.
- Scsi.ScsiManager.ExecTib: runs for a number of opcodes given by the caller; a program that never stops is seen as still running after any number.
- Scsi.ScsiManager.SendCommand: direct transfers (the flag is always false) and the faked answer to Request Sense are not modelled; nothing is said of memory after a copy has left the buffer.
- Scsi.ScsiManager.SCSIComplete: a call in which a copy leaves the buffer is modelled up to that copy; the device's reply is taken to be no longer than the transfer, and the time limit is passed on and not modelled.
- BlockDevice.FileHandle.SendIoRequest: a failing request is taken to have changed nothing; the high and low halves of the 64-bit offset are one number.
- BlockDevice.FileHandle.SysRead: only the device branch; plain files are host calls.
- BlockDevice.FileHandle.SysWrite: only the device branch; plain files are host calls.
- SerialProof.CompletionsAreExact: the deferred task's contents are taken at the moment it is queued; running the deferred-task queue is Macintosh code.
- Serial: control calls other than KillIO, Open's configuration, cumulative error flags and the parameters sent to the device are left out; code run by a trap during Open or Close makes no driver call for the same port.
- Serial: steps are values rather than methods of an object, because each store is a step of its own.
- ExtFs.FindKeeps: a name of more than 32 bytes is taken to be cut to 32, which holds while the time field behind the name begins with a zero byte.
- ExtFsList.Catalog.GetPath: the path is a list of names; spelling it out with AddPart and the 1024-byte limit are host matters.
- ExtFs.WalkResolves: the components are given, as splitting a path name is 68k code; the id counter is taken not to run out during the walk.
- VideoModes.MonitorDesc.FirstResolution: requires a display with at least one mode, since the search does not end without one.
- VideoModes.MonitorDesc.GetNextResolution: requires a display with at least one mode; the size fields of the answer are left out.
- SlotRomBuild.InstallSlotRom: names, driver code and gamma table are parameters; a ROM larger than the buffer is excluded, as the code does not check for it.
- SlotRomPatch.SwitchMode: the traps that search the ROM are the reader's functions; palettes, driver variables and the patches of system globals are left out.
- PrefsList.PrefsItems.LoadPrefsFromStream: white space is that of the C locale; out-of-range numbers are taken as the nearest 32-bit value.
- PrefsList.PrefsItems.SavePrefsToStream: the common and the platform keywords are one list.
- PrefsList.CompactArguments: the loop that takes the options in front of it, by the same calls that add and replace items, is left out.
- Timer.TimeManager.Remove: the time stored for a task that is overdue is an arbitrary value.
- Timer.TimeManager.LookAt: the callback itself is not part of the method; in the state machine anything may happen between two looks.
- Timer: host times do not overflow their 32-bit seconds.
- TimerSweep.InterruptCallsTheDue: the loop runs with no other action between two looks; with callbacks in between, Timer.HistoryIsGood and TimerSweep.ActiveExactly say what still holds.
- MacQueue.MacHeap.EnqueueMac: elements and header are taken not to overlap.
- PixelConvert.ConvertDirect: one method for the three depths. The conversions from 8, 16 and 32 bits and the palette lookups, one table access or mask for each pixel, are left out.
- PixelConvert.ConvertTable15Le: nothing is said of the pixels from the first 65535 on, as the table has no entry for it.
- ROM and resource patches, CD-ROM, floppy, disk, XPRAM, ADB, Ethernet and audio: dispatch on selectors or fixed data.
- Windows, menus, clipboard, preferences editor and every other AmigaOS call: their meaning is not visible in the code.
