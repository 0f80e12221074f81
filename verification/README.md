# NekoEcat: a verified model of the process-data plane and the protocols around it

The repository drives EtherCAT slaves from a daemon (`ecatd`), lets external programs read and write the process image
through a shared-memory segment (a C client library), and has a desktop studio that talks to the daemon in
newline-delimited JSON. This project models the parts of it whose correctness is not visible in any single function body
and proves what they keep over all inputs, all runs and all interleavings.

`dafny verify dfyconfig.toml` checks everything.

## What is modelled

**The shared data plane.** `FreeRun.dfy` is the daemon's per-cycle mirror on arrays: copy the bus image into the
inactive buffer, overlay client outputs into that buffer and into the bus image, flip the buffers, bump the version.
`NekoEcatClient.dfy` is the C client: attach, bounds, raw and by-index access. `DataPlane.dfy` says what one cycle means
as a value, `PlaneBits.dfy` says it again of the bits of the entry table alone, and `PlaneRuns.dfy` what whole runs of
cycles and client writes keep: a value written to output bytes is read back and sent on the bus after any number of
cycles, whatever the bus delivers. `SharedSession.dfy` runs daemon and client on one segment: it proves that end to end
through the by-index calls, and says exactly when an attached client and the daemon mean the same bytes.

**The same plane as a concurrent protocol.** `ShmProtocol.dfy` is a step machine: every byte of every memcpy, the flip,
the version store and every client store is a step of its own; a reader is a set of instants at which its loads happen
in a run. Memory is sequentially consistent. Proved: a successful double read is one published image, the one of the
version it first saw or the next, unless 2^64 bumps fall into the pass; a "version changed" failure took at least four
version bumps (`ShmProtocol.dfy`); exactly which client stores survive the double buffering and which are lost for good, with a run
that loses one (`ShmWrites.dfy`); an undisturbed cycle of the step machine is the sequential cycle
(`ShmRefinement.dfy`); the phases a client sees never move back, until the 64-bit version wraps (`ShmPhases.dfy`).

**Tables and layout exchange.** `FreeRunTables.dfy` lays a tree of slaves, syncs, PDOs and entries out flat with slices
pointing back, `TreeToPlane.dfy` follows a tree through these tables to the bytes its clients drive, `CStruct.dfy`
rebuilds the tree from flat tables and shows the two inverse to each other. `Layout.dfy` has the daemon's JSON printer
for the entry table and the client's hand-written scanner; `LayoutRoundTrip.dfy` (one entry), `LayoutScan.dfy` (the loop
over the table), `LayoutExchange.dfy` and `LayoutLimits.dfy` prove what the client recovers, for tables of any length,
and for exactly which entry names; `LayoutText.dfy` spells the printed text out.

**Requests and frames.** `Requests.dfy` is request correlation in the studio: ids, handlers, time stamps, and the four
ways a request ends (not connected, response, time-out sweep, disconnect flush), with handlers that send again. Every
request is pending, delivered exactly once, or lost to an id that a later send has reused, over runs of any length.
`RequestFates.dfy` says what each way of ending delivers, and `EcatClient.dfy` is the class proved against both.
`Framing.dfy` is newline reassembly in the studio, the daemon (with its 1 MiB limit) and the C client's growing line
buffer.

**Self-contained algorithms.** Unique PLC names and the bulk naming plan (`Naming.dfy`), and when the aliases of a plan
differ (`PlanAliases.dfy`); the ENI document and an independent XML reader that gets every field back (`Xml.dfy`,
`XmlLines.dfy`, `XmlTree.dfy`, `EniElements.dfy`, `EniForm.dfy`, `EniFields.dfy`, `Eni.dfy`, `EniDocument.dfy`,
`EniLines.dfy`, `EniGenerator.dfy`); topology differences as patches, and their agreement with the baseline comparison
(`Topology.dfy`); SDO values as text and bytes (`SdoCodec.dfy`); the rolling cycle window and telemetry beside the
running loop (`RtTest.dfy`); evidence grouping and the watch/startup comparison from both sides (`SdoEvidence.dfy`,
`WatchStartup.dfy`).

`Words.dfy`, `Memory.dfy`, `Text.dfy` and `Json.dfy` hold fixed-width integers, byte copies, decimal and hexadecimal
text, the C string functions and compact JSON.

## Where the code and its comments part

- `client/nekoecat_client.c:476-479` says a write disturbed by the daemon "self-corrects next cycle". It does not: a
  store to a buffer the daemon has just left is overwritten by the next copy of the bus image and never seen again
  (`SplitWriteIsLost`, `LostWriteRun`). `SurvivesIff` gives the exact condition.
- The direction of a layout entry is lost: the scan at `client/nekoecat_client.c:685-687` starts on the opening quote and
  matches nothing, so every entry becomes "TxPDO"; a zero bit length becomes 16 (`DirectionIsLost`, `ExactIffInputs`).
- An entry name with an opening brace or a closing bracket behind a closing brace misleads the scan of the layout
  (`BraceNameAddsEntry`, `BracketNameEndsScan`; the exact condition is `NamesDecide`).
- The cross-check of an attach compares the header with a layout that was printed from the same header: a size clients
  have overwritten in between passes it (`AttachAfterRun`, `OverwrittenHeaderMisplaces`). A second attach that fails the
  cross-check leaves the client attached to a mapping that is gone (`Attach`).
- The object a disconnect hands to pending handlers has no "error" key, though handlers test for one: a download cut off
  that way is taken for a success (`FailureShowsUnlessLost`, `LostDownloadLooksDone`).
- The daemon's 1 MiB limit counts finished lines that have not been cut off yet, so whether a stream is refused depends
  on how it is cut (`RefusesIffOverflow`, `OnePieceRefused`).
- The topology change list is empty when there was no previous scan, and a position scanned twice can be patched to the
  wrong entry (`PatchIff`, `RepeatedPositionMispatches`).
- A kept alias that the table does not show can be handed out again by the bulk naming plan (`DistinctNumbersDecide`,
  `KeptStaysApartIff`, `AllDifferIff`, `CollidingPlan`).
- The order of the phases a client sees ends with the 64-bit version (`PhaseOrderIff`, `WrapShowsConnected`).
- A value without a source counts in the conflict scan but not in the groups (`ScanAgreesIff`).
- Request ids are 64-bit and reused after a wrap: a request still waiting under a reused id is lost (`SendLosesIff`,
  `ReusedIdLosesRequest`, `LostRequestRun`).

## Model

| member | source | states |
|---|---|---|
| FreeRun.ComputeProcessDataSize | apps/ecatd/freerun_shm_mirror.cpp:4-15 | every bit of every entry lies below the result, and the result is 0 or just behind the last bit of some entry |
| FreeRun.ApplyEntry | apps/ecatd/freerun_shm_mirror.cpp:43-59 | one loop round copies the client's bytes of an in-bounds output into both images, touches nothing else, and refuses exactly the outputs with a bit at or past the end; CycleByBits says which bytes that makes |
| FreeRun.OverlayOutputs | apps/ecatd/freerun_shm_mirror.cpp:40-59 | after the loop both images hold the client's byte exactly where some in-bounds output drives it and the bus byte elsewhere; the client's buffer and all other bytes are untouched; the count is the number of refused outputs |
| FreeRun.PrepareImage | apps/ecatd/freerun_shm_mirror.cpp:37-59 | copy and overlay together turn the inactive buffer and the bus image into that same image, from arbitrary contents |
| FreeRun.Publish | apps/ecatd/freerun_shm_mirror.cpp:60-81 | the header after a publish, field by field, with 32- and 64-bit wrap-around and everything else unchanged |
| FreeRun.RunCycle | apps/ecatd/freerun_shm_mirror.cpp:31-81 | header, both buffers and bus image after a cycle are the specified plane; bytes behind the buffers are untouched |
| FreeRun.MirrorToShm | apps/ecatd/freerun_shm_mirror.cpp:17-82 | the same with the clamp to 4096, the zero size, the corrupt index and the null pointers, which leave everything as it was; CycleByBits and HeaderAfterCycle say what the specified plane holds |
| FreeRun.ShmSegment.constructor | apps/ecatd/FreeRunController.cpp:295-309 | a new segment has version 0, buffer 0 active, no flags, and the stride in its header |
| FreeRun.FreeRunController.StartMirror | apps/ecatd/FreeRunController.cpp:222-312 | for any bus image that holds every entry, the stride is at least 1, at most 4096, holds every bit of every entry unless it is 4096, and no larger than some entry asks for; the header agrees with it, and nothing is left behind when creating, sizing or mapping fails |
| FreeRun.FreeRunController.MirrorCycle | apps/ecatd/FreeRunController.cpp:345-379 | whatever size clients wrote into the header, the cycle is the specified one over at most the true stride |
| FreeRun.FreeRunController.Stop | apps/ecatd/FreeRunController.cpp:407-429 | the last publish clears bit 0 of the flags and keeps the others, bumps the version and leaves every other header field as it was before the segment is dropped |
| PlaneBits.EndByBits | apps/ecatd/freerun_shm_mirror.cpp:9-10 | an entry has just enough bytes for its bits: 8 n - 8 < bits <= 8 n; it ends behind the byte of its last bit |
| PlaneBits.IgnoredByBits | apps/ecatd/freerun_shm_mirror.cpp:45-54 | refused are exactly the outputs of at least one bit whose last bit lies at or past the end of the image |
| PlaneBits.CycleByBits | apps/ecatd/freerun_shm_mirror.cpp:23-59 | read off the entry table bit by bit: each byte of the new active buffer and of the bus image is the client's exactly if one of its bits belongs to an "RxPDO" entry all of whose bits lie inside the 4096 or fewer bytes of the cycle, and the bus's if not; everything else is untouched |
| PlaneBits.HeaderAfterCycle | apps/ecatd/freerun_shm_mirror.cpp:60-81 | version, cycle counter, time stamp, the RUNNING bit with the other flags kept, and the refusal counter grown by the number of outputs with a bit outside; a cycle over no bytes changes nothing |
| PlaneBits.OutputBitArrives | apps/ecatd/freerun_shm_mirror.cpp:45-58 | every bit of an output that fits, be it a single one, reaches the bus image and the new active buffer |
| PlaneRuns.CyclePublishes | apps/ecatd/freerun_shm_mirror.cpp:37-81 | the new active buffer and the bus image agree; both show the client's bytes where an in-bounds output drives them and fresh bus data elsewhere; the old active buffer is untouched |
| PlaneRuns.OverlayIgnoresOrder | apps/ecatd/freerun_shm_mirror.cpp:43-59 | any reordering of the entry table, overlaps included, gives the same image and the same number of refusals |
| PlaneRuns.ValueKept | apps/ecatd/freerun_shm_mirror.cpp:37-81 | over every run of cycles with arbitrary bus data and client writes elsewhere, driven bytes keep their value in the active buffer and, from the first cycle on, in the bus image |
| PlaneRuns.WriteReadsBack | client/nekoecat_client.c:592-611 | a value stored by a typed write on driven bytes is what a typed read returns and what the bus carries after any such run |
| PlaneRuns.RefusedAtStartSize | apps/ecatd/FreeRunController.cpp:222-227 | with the stride start() picks, exactly the nonempty outputs ending past 4096 are refused |
| PlaneRuns.RefusedOverRun | apps/ecatd/freerun_shm_mirror.cpp:50-62 | after any run the diagnostic counter is its start plus cycles times refused outputs, modulo 2^32 |
| PlaneRuns.SizingOverRun | apps/ecatd/FreeRunController.cpp:222-312 | across sizing, mirror and session: no cycle refuses an output if and only if all outputs end by 4096; the counter after k cycles is k times m modulo 2^32, stays 0 over every run in the first case, and shows after one cycle in the other |
| NekoEcatClient.LayoutByteOffset | client/nekoecat_client.c:716-726 | the offset of the first entry with the address; the sentinel when there is none |
| NekoEcatClient.LocatedOnce | client/nekoecat_client.c:716-726 | every address has one location, so a write and a read by index of one address meet at the same bytes |
| NekoEcatClient.LayoutStride | client/nekoecat_client.c:288-301 | the stride derived from a parsed size is never zero and never past the cap |
| NekoEcatClient.Client.Attach | client/nekoecat_client.c:303-371 | attaching succeeds exactly when the object exists, can be examined and mapped, and its header agrees with the parsed size; a differing layout version is remembered as an error; failing before the mapping changes nothing, and a failed size check leaves the client as attached as it was, with a header pointer into a mapping that is gone |
| NekoEcatClient.Client.EffectiveDataSize | client/nekoecat_client.c:414-427 | the size used never exceeds the mapping, whatever the header says |
| NekoEcatClient.EffectiveSizeIs | client/nekoecat_client.c:414-427 | it is the size in the header if that is a size inside the mapping, and the mapped size if not |
| NekoEcatClient.Client.CheckBounds | client/nekoecat_client.c:429-435 | the overflow-free form accepts exactly the ranges inside the effective size, never the sentinel |
| NekoEcatClient.Client.ReadRawAt | client/nekoecat_client.c:447-473 | with nobody publishing meanwhile, a read succeeds exactly when attached, in bounds and the index is valid, and returns the active buffer's bytes |
| NekoEcatClient.Client.WriteRawAt | client/nekoecat_client.c:475-496 | a write succeeds under the same condition and changes those bytes of the active buffer only; a refused write changes nothing |
| NekoEcatClient.Client.WriteByIndex | client/nekoecat_client.c:592-611 | the value goes, as little-endian bytes, to the offset of the first entry with the address, in the active buffer and nowhere else; unknown addresses are refused |
| NekoEcatClient.Client.ReadByIndex | client/nekoecat_client.c:566-585 | the value of the little-endian bytes at the offset of the first entry with the address; nothing exactly when the address is unknown, out of bounds or the index corrupt |
| NekoEcatClient.StoreInHalf | client/nekoecat_client.c:475-496 | a store inside one buffer changes that buffer only, seen in the block that holds both |
| SharedSession.AttachAfterRun | client/nekoecat_client.c:303-354 | after a start, any run of cycles and stores to the header's size, the attach succeeds exactly when the header then agrees with the layout, and both sides mean the same byte by every buffer and in-bounds offset if and only if the header still holds the stride |
| SharedSession.SameBytesIff | client/nekoecat_client.c:350-354 | the two sides agree on both buffers if and only if the client mapped the daemon's stride |
| SharedSession.OverwrittenHeaderMisplaces | client/nekoecat_client.c:339-354 | a header size overwritten before the layout is fetched passes the cross-check and puts buffer 1 elsewhere |
| SharedSession.Happen | apps/ecatd/freerun_shm_mirror.cpp:31-81 | a cycle on a new bus image, or a client write, performed by the two sides is the specified step of the plane |
| SharedSession.HappenAll | apps/ecatd/freerun_shm_mirror.cpp:31-81 | so is a whole run |
| SharedSession.WriteRunRead | client/nekoecat_client.c:566-611 | after a write by index to driven bytes and any run of cycles with arbitrary bus data and writes elsewhere, the read by index gives the value and the bus image holds it |
| ShmProtocol.InvStep | apps/ecatd/freerun_shm_mirror.cpp:31-81 | every step keeps: the active buffer holds the latest image except where clients stored, and image, version and flag bookkeeping agree |
| ShmProtocol.InvAt | apps/ecatd/freerun_shm_mirror.cpp:31-81 | that invariant holds in every state of every run |
| ShmProtocol.QuietWindow | client/nekoecat_client.c:459-469 | while the version stands still the daemon never writes the buffer a reader picked |
| ShmProtocol.SameVersion | client/nekoecat_client.c:460-469 | equal version words mean equal bump counts as long as fewer than 2^64 bumps lie between |
| ShmProtocol.SnapshotRead | client/nekoecat_client.c:459-471 | an accepted pass of the double read yields the bytes of one published image, number v1 or v1 + 1 |
| ShmProtocol.FailedRead | client/nekoecat_client.c:459-473 | a call that gives up saw at least one version bump in each of its passes |
| ShmProtocol.ReadRawAt | client/nekoecat_client.c:447-473 | in any interleaving in which fewer than 2^64 version bumps fall into the pass the call returns from, success is one published image (no byte of it a client's own store); failure took at least four bumps |
| ShmWrites.CarriedStep | apps/ecatd/freerun_shm_mirror.cpp:37-77 | one step changes the carried value of an output byte exactly when a client stores to the buffer that carries it |
| ShmWrites.HeldStep | apps/ecatd/freerun_shm_mirror.cpp:37-77 | a value held wherever the cycle still takes the byte from, and wherever it already went, stays so over every step but a store to that byte |
| ShmWrites.SurvivesIff | client/nekoecat_client.c:475-496 | with no later store to the byte, every later image shows the stored value if and only if the store went to the carrier or repeated its value |
| ShmWrites.WriteSurvives | client/nekoecat_client.c:475-496 | a store to the active buffer before the cycle's last copy of the byte is in every later image and bus image |
| ShmWrites.ClientWriteSurvives | client/nekoecat_client.c:475-496 | a write whose index load and stores fall between one publish and the next overlay loop is whole in that cycle's bus image and in every later image until overwritten |
| ShmWrites.SplitWriteIsLost | client/nekoecat_client.c:476-479 | a write split by a publish is never seen: every later image keeps the byte of the other buffer |
| ShmWrites.LostWriteRun | client/nekoecat_client.c:476-479 | such a run exists: after it no continuation without stores ever shows the value |
| ShmRefinement.ProgressStep | apps/ecatd/freerun_shm_mirror.cpp:37-77 | each step of an undisturbed cycle moves the two images along the entry table as specified |
| ShmRefinement.QuietCycle | apps/ecatd/freerun_shm_mirror.cpp:17-82 | an undisturbed cycle of the step machine ends in exactly the plane of the sequential cycle |
| ShmPhases.PhaseMeaning | client/nekoecat_client.c:633-643 | what each reported phase says about the daemon at the instants of the two loads |
| ShmPhases.PhasesMoveForward | client/nekoecat_client.c:633-643 | successive results only move CONNECTED, RUNNING, DATA_STALE, in any interleaving, as long as fewer than 2^64 bumps have happened by the last of them |
| ShmPhases.PhaseOrderIff | client/nekoecat_client.c:633-643 | in a run no later result ever moves back if and only if fewer than 2^64 bumps happen in it |
| ShmPhases.WrapShowsConnected | client/nekoecat_client.c:633-643 | there is a run of exactly 2^64 version bumps in which a client that has seen RUNNING is told CONNECTED at the end |
| FreeRunTables.CountEntries | apps/ecatd/FreeRunController.cpp:95-104 | the pre-sized tables have one slot for each entry of the tree |
| FreeRunTables.Tables.BuildTables | apps/ecatd/FreeRunController.cpp:89-212 | registrations and runtime entries agree slot by slot with the depth-first order of the tree, the list ends with its terminator, each slave's storage is the specified one, and every refusal of a configuration, of the registrations, of the activation or of the process image leaves all tables empty |
| FreeRunTables.Tables.AddSlave | apps/ecatd/FreeRunController.cpp:118-185 | one slave extends both tables by its own rows in order and adds its storage |
| FreeRunTables.Tables.AddPdo | apps/ecatd/FreeRunController.cpp:124-151 | one PDO extends both tables by its entries, with consecutive slots; TablesFromTree says what each holds |
| FreeRunTables.BuildPdoStorage | apps/ecatd/FreeRunController.cpp:156-162 | PDO k of the slave points at row k of the entry storage with that row's length |
| FreeRunTables.BuildSyncStorage | apps/ecatd/FreeRunController.cpp:164-176 | each sync points at the number of PDOs before it, a sync without PDOs at nothing |
| FreeRunTables.SyncReadsBack | apps/ecatd/FreeRunController.cpp:156-176 | all pointers stay inside their storage and each sync reads back exactly its own PDOs and entries |
| FreeRunTables.BuildMirrorEntries | apps/ecatd/FreeRunController.cpp:330-343 | mirror entry k is row k of the tree with the offset of slot k, driven by clients exactly if its sync is an output |
| TreeToPlane.RowOfPath | apps/ecatd/FreeRunController.cpp:107-151 | entry d of PDO c of sync b of slave a is the row with exactly the entries met before it in front |
| TreeToPlane.PathOfRow | apps/ecatd/FreeRunController.cpp:107-151 | and every row is such an entry |
| TreeToPlane.TablesFromTree | apps/ecatd/FreeRunController.cpp:124-341 | that row of the registrations, the runtime entries and the mirror entries holds, field by field, what the tree says: alias, position, vendor and product of the slave, sync index, "RxPDO" exactly for an output sync, PDO index, and index, subindex, bit length and name of the entry, with its own slot and the offset of that slot |
| TreeToPlane.TreeDrives | apps/ecatd/FreeRunController.cpp:130-378 | after a cycle with the mirror entries of any tree, a byte of the bus image and of the new active buffer is the client's exactly if one of its bits belongs to an entry below an OUTPUT sync that fits, and the bus's if not |
| TreeToPlane.OutputEntryArrives | apps/ecatd/FreeRunController.cpp:130-378 | so every bit of an entry below an OUTPUT sync reaches the bus where the entry fits |
| TreeToPlane.SyncByField | apps/ecatd/FreeRunController.cpp:124-176 | what ecrt reads through the pointers for sync b, PDO c, entry d is the tree's, field by field |
| CStruct.CopySlice | apps/ecatd/FreeRunController.cpp:590-592 | a count and a start select that slice, clipped at the end of the table |
| CStruct.ParseCStruct | apps/ecatd/FreeRunController.cpp:543-620 | the parsed tree is the one the three tables describe; missing ids and an empty sync table are the two errors |
| CStruct.ParsedByField | apps/ecatd/FreeRunController.cpp:581-611 | read off the three tables: the ids, alias 0, for row b of the sync table its index, OUTPUT exactly for "EC_DIR_OUTPUT" and ENABLE exactly for "EC_WD_ENABLE", and which rows of the PDO and entry tables its PDO c and entry d are, clipped at the end |
| CStruct.TreeSurvives | apps/ecatd/FreeRunController.cpp:581-611 | parsing the flat form of any slave gives the slave back, the alias excepted |
| CStruct.TablesSurvive | apps/ecatd/FreeRunController.cpp:581-611 | the tree parsed from tables whose starts are prefix sums flattens back to those tables |
| CStruct.RegisteredInTableOrder | apps/ecatd/FreeRunController.cpp:122-151 | a slave parsed from such tables is registered in the order of its entry table |
| Layout.LayoutParseFromShmInfoJson | client/nekoecat_client.c:658-714 | the scanning loop with its cap and truncation flag computes the recursive scan of the text |
| Text.StrStrIsFirst | client/nekoecat_client.c:663-671 | the search the scanner is built on returns the first occurrence, and nothing exactly when there is none |
| Text.ScanSigned | client/nekoecat_client.c:679-684 | what the number scan stores for blanks, an optional sign and digits: 2^64 - 1 from 2^64 on, else the value, negated modulo 2^64 behind a minus, cut to the field |
| LayoutRoundTrip.FindMember | client/nekoecat_client.c:676-687 | searching a printed object for a key finds the member with that key, past any numbers and strings before it, whatever they say |
| LayoutRoundTrip.NumberField | client/nekoecat_client.c:676-684 | a printed number comes back through search and scan |
| LayoutRoundTrip.OffsetField | client/nekoecat_client.c:684 | offsets from 2^31 on are printed negative and still come back |
| LayoutRoundTrip.DirectionIsLost | client/nekoecat_client.c:685-687 | the direction of every printed entry is read as "TxPDO" |
| LayoutRoundTrip.EntryAtRecovers | client/nekoecat_client.c:669-699 | from any printed entry the client gets slave, index, subindex, offset and nonzero bit length |
| LayoutRoundTrip.EntriesFromIsPrinted | apps/ecatd/FreeRunController.cpp:390-403 | the printed array is its entries one after the other |
| LayoutScan.CutAtBrace | client/nekoecat_client.c:670-671 | after the first closing brace of a printed entry the scanner goes on with the rest of that entry |
| LayoutScan.PostIs | client/nekoecat_client.c:670-671 | the first brace or bracket in that rest is the first one in the name behind the name's first closing brace, escaping included |
| LayoutScan.MarkDecides | client/nekoecat_client.c:702-711 | the loop goes on, and the table counts as truncated, exactly when the next opening brace comes before any closing bracket |
| LayoutScan.StrayEntry | client/nekoecat_client.c:667-699 | where the loop goes on inside a name it reads an entry with slave, subindex and offset of the entry with that name |
| LayoutScan.ScanPrinted | client/nekoecat_client.c:667-712 | from a cursor before the first brace the loop recovers the entries in order, up to its room, and tells whether there are more, if no name up to the room misleads it; and only then, where neighbours differ in slave, subindex or offset |
| LayoutText.EntryText | apps/ecatd/FreeRunController.cpp:391-401 | the text printed for an entry, key by key |
| LayoutText.InfoText | apps/ecatd/FreeRunController.cpp:381-404 | the text of the object around the table; 32- and 64-bit words are printed signed |
| LayoutText.ReplyText | src/core/JsonProtocol.cpp:9-11 | the text of the reply that carries it |
| LayoutText.TableText | apps/ecatd/FreeRunController.cpp:390-403 | the entries of the table, separated by commas |
| LayoutText.EscapedCharacters | src/core/JsonProtocol.cpp:9-11 | the characters a printed string cannot show as they are, and what stands for them |
| LayoutText.EscapeOneMore | src/core/JsonProtocol.cpp:9-11 | one character after the other |
| LayoutText.FieldsOfAnyObject | client/nekoecat_client.c:679-697 | in any object, printed by the daemon or not: a missing key counts as 0 or as an input; a direction is what stands between the colon and the next quote, cut at seven characters, and an input if that is nothing |
| LayoutText.ReceivedByField | client/nekoecat_client.c:667-714 | what the surviving table is, field by field: the first 64 entries with all their numbers, 16 for a zero bit length, every direction "TxPDO", the data size, and whether there were more |
| LayoutExchange.SizeIsRead | client/nekoecat_client.c:661-662 | the data size survives the exchange for every 32-bit value |
| LayoutExchange.LayoutSurvives | client/nekoecat_client.c:658-714 | for every nonempty table and any trailing text: if no name among the first 64 misleads the loop the client gets the data size and, in order, the first 64 entries, truncated exactly if there were more; and only then, where neighbours differ in slave, subindex or offset |
| LayoutExchange.NamesDecide | client/nekoecat_client.c:658-714 | every table with given names survives, whatever its numbers and the text behind it, if and only if none of the first 64 names misleads the loop: no brace or bracket behind a closing brace, where the last name may have a bracket first and the 64th of more a brace |
| LayoutExchange.ReplySurvives | client/nekoecat_client.c:273-291 | the same through the whole reply as attach() cuts it |
| LayoutExchange.ExactIffInputs | client/nekoecat_client.c:694-697 | what the parser returns for a table of at most 64 entries equals the table in every field if and only if it holds inputs of nonzero length only |
| LayoutLimits.EmptyTableRefused | client/nekoecat_client.c:713 | a table without entries is refused |
| LayoutLimits.BraceNameAddsEntry | client/nekoecat_client.c:667-711 | a table of one entry named "}{" does not survive |
| LayoutLimits.BracketNameEndsScan | client/nekoecat_client.c:702-706 | a first entry named "}]" survives alone and ends the scan before a second one |
| Requests.FailureShowsUnlessLost | apps/ecat-studio/infra/EcatClient.cpp:38-43 | a failure object has the "error" key if and only if it is not the one of a lost connection |
| Requests.SendKeeps | apps/ecat-studio/infra/EcatClient.cpp:398-420 | sending, connected or not, keeps every request pending, owed, delivered exactly once or lost to a reused id |
| Requests.CompleteKeeps | apps/ecat-studio/infra/EcatClient.cpp:424-454 | so does a response, handlers that send again included |
| Requests.TimeOutAllKeeps | apps/ecat-studio/infra/EcatClient.cpp:457-484 | so does a sweep, in whatever order the table is walked |
| Requests.LoseAllKeeps | apps/ecat-studio/infra/EcatClient.cpp:33-45 | so does the flush of a disconnect, in whatever order |
| Requests.StepKeeps | apps/ecat-studio/infra/EcatClient.cpp:398-484 | every event keeps the invariant, also across a wrap of the id counter |
| Requests.ExactlyOnce | apps/ecat-studio/infra/EcatClient.cpp:398-484 | at every point of every run each request is exactly one of pending, delivered once, or lost to a reused id; the two tables have the same ids; until the id counter wraps nothing is lost and all ids are below the next one |
| Requests.AccountedIffNoneLost | apps/ecat-studio/infra/EcatClient.cpp:398-484 | every request is pending or delivered once if and only if no send has replaced a pending entry |
| Requests.NothingInvented | apps/ecat-studio/infra/EcatClient.cpp:398-484 | nothing is delivered that was not sent |
| Requests.NonePendingAfterDisconnect | apps/ecat-studio/infra/EcatClient.cpp:33-45 | after a disconnect the tables are empty and every request made so far has been delivered exactly once, unless it was lost before |
| Requests.LateResponseIsDropped | apps/ecat-studio/infra/EcatClient.cpp:424-454 | a response to a request already delivered changes nothing and reaches nobody if and only if its id is not in the table, which is so until the id counter wraps |
| Requests.ResponseReachesItsRequest | apps/ecat-studio/infra/EcatClient.cpp:424-454 | a response to a pending request is delivered first of all to that request, once |
| Requests.SendLosesIff | apps/ecat-studio/infra/EcatClient.cpp:412-414 | a send loses a request if and only if the id it is about to use is still in the table |
| Requests.ReusedIdLosesRequest | apps/ecat-studio/infra/EcatClient.cpp:412-414 | the request whose id is reused is, at every later point of the run, neither pending nor delivered |
| Requests.LostRequestRun | apps/ecat-studio/infra/EcatClient.cpp:412-414 | such a run exists: after 2^64 unanswered sends the next one loses the first request |
| Requests.LostDownloadLooksDone | apps/ecat-studio/infra/EcatClient.cpp:253-266 | a download cut off by a disconnect is followed by its verifying upload, which fails at once |
| EcatClient.Client.Send | apps/ecat-studio/infra/EcatClient.cpp:398-420 | the fields after a send, the recursion through immediately failing handlers included; connected, the request stands under the decimal text of the id counter with its time |
| RequestFates.ObjectReceived | apps/ecat-studio/infra/EcatClient.cpp:38-43 | the object a handler receives in each case, member by member: the result; "error", "errorCode" and "errorMessage" of a failure; "code" and "message" of a lost connection |
| RequestFates.CompleteDelivers | apps/ecat-studio/infra/EcatClient.cpp:424-454 | a response is handed to the request under its id before anything else happens, and to nobody if there is none |
| RequestFates.SweepDelivers | apps/ecat-studio/infra/EcatClient.cpp:457-484 | a sweep tells the request under each of its ids how long it has waited and leaves every other request in the table; the one other outcome is an id that a handler has used again |
| RequestFates.FlushDelivers | apps/ecat-studio/infra/EcatClient.cpp:33-45 | the flush of a disconnect tells each request it swapped out that the connection is lost |
| EcatClient.Client.HandleLine | apps/ecat-studio/infra/EcatClient.cpp:424-454 | a positive line delivers its result to the request under its id first of all, a negative one its message and code; malformed lines change nothing and unknown ids reach nobody |
| EcatClient.Client.SweepTimedOutRequests | apps/ecat-studio/infra/EcatClient.cpp:457-484 | timed out are exactly the requests that have waited longer than the limit, each once |
| EcatClient.Client.OnDisconnected | apps/ecat-studio/infra/EcatClient.cpp:33-45 | every pending handler is failed once, after the tables are emptied |
| EcatClient.Client.SetRequestTimeout | apps/ecat-studio/infra/EcatClient.cpp:487-489 | nonpositive limits fall back to ten seconds |
| EcatClient.Client.OnConnected | apps/ecat-studio/infra/EcatClient.cpp:19-32 | of the request tables a connect changes nothing |
| EcatClient.Client.ReadSocket | apps/ecat-studio/infra/EcatClient.cpp:387-395 | the lines completed by the new bytes are handled in order and the rest is kept |
| EcatClient.CutsDoNotMatterToTheClient | apps/ecat-studio/infra/EcatClient.cpp:387-395 | however a stream is cut into reads and whenever they arrive, the same requests are completed and sent and the same bytes are left over; only the time stamps of requests depend on the times |
| Framing.LinesAreTheSplit | apps/ecat-studio/infra/EcatClient.cpp:387-395 | lines and remainder put together again are the stream, and none of them contains a newline |
| Framing.SplitIsUnique | apps/ecat-studio/infra/EcatClient.cpp:387-395 | that is the only way of cutting a stream at its newlines |
| Framing.SplitInParts | apps/ecat-studio/infra/EcatClient.cpp:388-392 | keeping the remainder and going on is splitting the whole |
| Framing.EncodedMessagesComeBack | src/core/JsonProtocol.cpp:9-11 | messages encoded one after the other come back one by one with nothing left over |
| Json.PrintIsOneLine | src/core/JsonProtocol.cpp:9-11 | a compact JSON value contains no newline, whatever its strings |
| Framing.SocketReader.ReadClient | apps/ecatd/EcatDaemon.cpp:94-127 | one read either overflows and handles nothing or handles the completed lines in order and keeps the rest |
| Framing.CutsDoNotMatter | apps/ecatd/EcatDaemon.cpp:94-127 | as long as no chunk overflows, the lines handled are the lines of the whole stream |
| Framing.RefusesFromOverflow | apps/ecatd/EcatDaemon.cpp:109-114 | from the first overflowing chunk on nothing more is handled |
| Framing.RefusesIffOverflow | apps/ecatd/EcatDaemon.cpp:109-114 | a connection is refused if and only if some chunk together with the unfinished line exceeds 1 MiB |
| Framing.OnePieceRefused | apps/ecatd/EcatDaemon.cpp:109-114 | a stream of empty lines is refused in one piece and accepted in two |
| Framing.RecvLine | client/nekoecat_client.c:95-126 | the growing buffer ends, and returns exactly the first line if it has at most 2^20 - 2 bytes |
| Naming.UniqueName | apps/ecat-studio/models/IoVariableModel.cpp:380-391 | the suffix loop ends and returns the base or the base with the first suffix _2, _3, ... such that the name is not used, ignoring case |
| Text.LowerLetters | apps/ecat-studio/models/IoVariableModel.cpp:386 | ignoring case means the 26 capital letters and nothing else |
| Naming.CandidatesDiffer | apps/ecat-studio/models/IoVariableModel.cpp:385-388 | no two candidates of one base are the same name ignoring case |
| Naming.DeclarationBlock | apps/ecat-studio/models/IoVariableModel.cpp:402-412 | between the two keywords one line per row with symbol, type and comment in their places, the symbols pairwise distinct ignoring case |
| Naming.DuplicateSymbols | apps/ecat-studio/models/IoVariableModel.cpp:301-313 | exactly the symbols that occur twice ignoring case |
| Naming.UnchangedIffNoDuplicates | apps/ecat-studio/models/IoVariableModel.cpp:301-412 | a block declares every row under its own symbol if and only if the duplicate scan finds nothing |
| Naming.TakenAliases | apps/ecat-studio/models/IoVariableModel.cpp:60-69 | exactly the nonblank aliases, ignoring case and blanks around, of rows outside the scope or of all rows where aliases are kept |
| Naming.BuildBulkNamingPlan | apps/ecat-studio/models/IoVariableModel.cpp:44-118 | exactly the numbers that are not in the table or whose row has no key are skipped, the planned keys are those of all other targets, each key keeps the alias of its metadata where it is to be kept and otherwise has the last new name made for it, and the counters add up |
| PlanAliases.PlanMeans | apps/ecat-studio/models/IoVariableModel.cpp:44-118 | the counters count numbers whose row is there and has a key, the others, and those whose key keeps a nonblank alias of the metadata; the planned keys are those of the former, and a kept alias is the one of the metadata |
| PlanAliases.RowOfIs | apps/ecat-studio/models/IoVariableModel.cpp:50-58 | a number stands for the last row that has it |
| PlanAliases.NoRowOf | apps/ecat-studio/models/IoVariableModel.cpp:50-58 | and for none exactly when no row has it |
| PlanAliases.NewNamesAreNew | apps/ecat-studio/models/IoVariableModel.cpp:90-99 | each new name is the first free candidate of its row's suggestion over the retained names and the new ones before it; new names differ from each other and from every retained one |
| PlanAliases.NewAliasesDiffer | apps/ecat-studio/models/IoVariableModel.cpp:90-99 | two keys that both get a new alias get different ones, in any plan |
| PlanAliases.RetainedAliasesDiffer | apps/ecat-studio/models/IoVariableModel.cpp:60-99 | no new alias of a plan is the alias of a retained row |
| PlanAliases.KeptStaysApartIff | apps/ecat-studio/models/IoVariableModel.cpp:60-99 | over all suggestions, no plan has a new alias for one key that another key keeps if and only if every kept alias is among the names taken at the start or no renamed row has its number for itself; asked where some renamed row has, none is renamed, or no kept alias outside those names ends in a suffix |
| PlanAliases.DistinctNumbersDecide | apps/ecat-studio/models/IoVariableModel.cpp:60-99 | for distinct target numbers: if and only if every kept alias is among the names taken at the start or no row gets a new alias |
| PlanAliases.TakenStayApart | apps/ecat-studio/models/IoVariableModel.cpp:60-99 | for any targets, repeated ones included, kept aliases among the names taken at the start are handed out by no plan |
| PlanAliases.AllDifferIff | apps/ecat-studio/models/IoVariableModel.cpp:44-118 | over all suggestions, all aliases of a plan are pairwise distinct, ignoring case, if and only if the kept ones are and none of them can be handed out again |
| PlanAliases.AgreementKeepsApart | apps/ecat-studio/models/IoVariableModel.cpp:60-99 | where table and metadata agree on the aliases every kept alias is among them |
| PlanAliases.CollidingPlan | apps/ecat-studio/models/IoVariableModel.cpp:44-118 | without agreement the returned plan can give two keys the same alias |
| Xml.XmlEscape | src/core/EniGenerator.cpp:15-23 | the five replacements in place compute a one-pass escape |
| Xml.ReplacesAreOnePass | src/core/EniGenerator.cpp:15-23 | five successive replacements equal one pass, character by character |
| Xml.UnescapeEscape | src/core/EniGenerator.cpp:15-23 | reading the predefined entities (section 4.6 of XML 1.0) undoes the escape |
| Xml.EntityOf | src/core/EniGenerator.cpp:15-23 | the five markup characters go out as the five predefined entities and all others as they are |
| XmlTree.DocumentReadsBack | src/core/EniGenerator.cpp:123-156 | every document printed line by line is well formed (section 3.1 of XML 1.0) and reads back as its elements |
| XmlLines.LexRenderAll | src/core/EniGenerator.cpp:25-121 | printed lines fall into exactly the marks and texts of their elements, whatever the texts contain |
| EniForm.RootOk | src/core/EniGenerator.cpp:123-156 | the elements of every network are well formed |
| EniFields.SlaveBack | src/core/EniGenerator.cpp:99-121 | from the element of any slave all its fields come back, optional parts present or not |
| Eni.NetworkBack | src/core/EniGenerator.cpp:99-156 | the elements of a configuration determine all its fields |
| Eni.NetworkSurvives | src/core/EniGenerator.cpp:123-156 | for any slaves, PDOs, commands and names the document is tag-balanced and reading it gives back the same network |
| EniDocument.DocumentAsRead | src/core/EniGenerator.cpp:123-156 | the document read back, literally: the root with its attributes, the master with name, source and cycle time, and one element for each slave |
| EniDocument.SlaveAsRead | src/core/EniGenerator.cpp:45-121 | the element of slave k in the document read back, literally: every tag, attribute and text of its sections, PDOs, entries and commands, parts left out exactly when empty; its auto-increment address is the 16-bit word that cancels its position |
| EniDocument.ElementText | src/core/EniGenerator.cpp:25-156 | how an element, and the document around the root, stand on paper |
| EniGenerator.BuildMailbox | src/core/EniGenerator.cpp:25-43 | the section lists exactly the supported protocols, or is absent |
| EniGenerator.BuildProcessData | src/core/EniGenerator.cpp:45-74 | the text of all PDOs with their entries, or nothing |
| EniGenerator.BuildInitCmds | src/core/EniGenerator.cpp:76-97 | the text of all commands, or nothing |
| EniGenerator.BuildSlaveElement | src/core/EniGenerator.cpp:99-121 | the text of one slave; SlaveAsRead says what it reads as |
| EniGenerator.EniGenerator.Generate | src/core/EniGenerator.cpp:123-156 | the appended text is the document whose reading NetworkSurvives, DocumentAsRead and SlaveAsRead describe |
| EniGenerator.EniGenerator.AddSlave | src/core/EniGenerator.cpp:7-9 | slaves are kept in the order they were added |
| EniGenerator.EniGenerator.Clear | src/core/EniGenerator.cpp:11-13 | no slave is left |
| Topology.DetectTopologyChanges | apps/ecat-studio/models/TopologyModel.cpp:85-152 | the change list is the specified one, in order |
| Topology.DiffIsAPatch | apps/ecat-studio/models/TopologyModel.cpp:85-152 | with distinct positions and a previous scan, applying the changes to it gives the current one |
| Topology.PatchIff | apps/ecat-studio/models/TopologyModel.cpp:85-152 | applying the changes gives the current scan if and only if there was a previous scan and no field of a position scanned more than once strays from its previous value and comes back to it, or there is nothing now |
| Topology.RepeatedPositionMispatches | apps/ecat-studio/models/TopologyModel.cpp:102-139 | a position scanned first under another name and then as before is patched to the wrong entry |
| Topology.EmptyIffSame | apps/ecat-studio/models/TopologyModel.cpp:85-152 | with a previous scan and distinct positions, nothing is reported if and only if the two scans show the same |
| Topology.EmptyIff | apps/ecat-studio/models/TopologyModel.cpp:85-152 | over all scans, nothing is reported if and only if there was no previous scan, or every slave of the current one is at a position of the previous one with the same name, state and flags and no position is gone |
| Topology.DetectedMeans | apps/ecat-studio/models/TopologyModel.cpp:85-152 | what each kind of change at a position says about the two scans, both ways |
| Topology.ChangeSlaves | apps/ecat-studio/models/TopologyModel.cpp:102-149 | every change carries the slave of the current scan unless it is gone and, unless it is new, the one the previous scan had last at that position |
| Topology.CompareTopologyBaseline | apps/ecat-studio/models/TopologyModel.cpp:16-77 | the issue list is the specified one, in order |
| Topology.ComparedMeans | apps/ecat-studio/models/TopologyModel.cpp:16-77 | what each kind of issue at a position says about the two scans, both ways |
| Topology.IssueSlaves | apps/ecat-studio/models/TopologyModel.cpp:34-75 | every issue carries the slave of the baseline unless it is unexpected and, unless it is missing, the one the current scan has last at that position |
| Topology.ReportsAgree | apps/ecat-studio/models/TopologyModel.cpp:16-152 | both comparisons name the same positions as removed, added and renamed; state issues are state changes |
| SdoCodec.EncodeValue | src/igh/EthercatNativeBackend.cpp:481-556 | by type name: how many bytes are written, which number or text they are, and when the value is refused |
| SdoCodec.DecodeValue | src/igh/EthercatNativeBackend.cpp:400-443 | by type name: the number or text shown for the bytes |
| SdoCodec.ShownByName | src/igh/EthercatNativeBackend.cpp:400-434 | by type name, in any case and with blanks around: the unsigned value of one, two or four little-endian bytes for the u-names, the two's complement value for the others, Latin-1 for the string names |
| SdoCodec.DumpedByName | src/igh/EthercatNativeBackend.cpp:403-443 | every other name, and every value too short for its type, shows two hexadecimal digits per byte |
| SdoCodec.WrittenAsByte | src/igh/EthercatNativeBackend.cpp:486-521 | by type name: one byte, the number modulo 2^8; refused exactly when the text is no number |
| SdoCodec.WrittenAsWord | src/igh/EthercatNativeBackend.cpp:495-530 | two little-endian bytes, the number modulo 2^16 |
| SdoCodec.WrittenAsLong | src/igh/EthercatNativeBackend.cpp:504-539 | four little-endian bytes, the number modulo 2^32 |
| SdoCodec.WrittenAsText | src/igh/EthercatNativeBackend.cpp:540-545 | one byte per character, a question mark outside Latin-1, at most 4096 |
| SdoCodec.WrittenAsHex | src/igh/EthercatNativeBackend.cpp:546-556 | for every other name: blanks and a prefix aside, the hexadecimal digits two by two from the right, the first alone if their number is odd, at most 4096 bytes |
| SdoCodec.DigitsAmong | src/igh/EthercatNativeBackend.cpp:551 | characters that are no hexadecimal digits are skipped |
| SdoCodec.ParsedUnsigned | src/igh/EthercatNativeBackend.cpp:487 | blanks, an optional plus sign and digits below 2^32 are unsigned numbers, with the value of the digits |
| SdoCodec.ParsedSigned | src/igh/EthercatNativeBackend.cpp:514 | blanks, an optional sign and digits between -2^31 and 2^31 - 1 are signed ones |
| SdoCodec.OnlyNumeralsParse | src/igh/EthercatNativeBackend.cpp:487-514 | no other text is taken for a number |
| SdoCodec.UnsignedRange | src/igh/EthercatNativeBackend.cpp:403-512 | by type name: of the numbers below 2^32 exactly those below 2^8, 2^16, 2^32 come back unchanged |
| SdoCodec.SignedRange | src/igh/EthercatNativeBackend.cpp:420-539 | by type name: of the 32-bit signed numbers exactly those in the signed range of the type come back unchanged |
| Text.DecimalPlaces | src/igh/EthercatNativeBackend.cpp:406 | decimal numerals, place by place |
| Text.HexPlaces | src/igh/EthercatNativeBackend.cpp:441 | hexadecimal numerals, place by place |
| Text.ReadDecimal | src/igh/EthercatNativeBackend.cpp:487 | and read, digit by digit |
| Text.ReadHex | src/igh/EthercatNativeBackend.cpp:551 | in small or capital letters |
| Text.TrimAround | src/igh/EthercatNativeBackend.cpp:403 | blanks around a word are what trimming takes off |
| SdoCodec.UnsignedModuloWidth | src/igh/EthercatNativeBackend.cpp:486-512 | every unsigned number the parser accepts comes back modulo the width of its type |
| SdoCodec.SignedModuloWidth | src/igh/EthercatNativeBackend.cpp:513-539 | every signed number comes back as the two's complement word of its width |
| SdoCodec.UnsignedComesBack | src/igh/EthercatNativeBackend.cpp:403-419 | every in-range canonical decimal comes back as it was |
| SdoCodec.SignedComesBack | src/igh/EthercatNativeBackend.cpp:420-434 | every in-range signed canonical decimal comes back as it was |
| SdoCodec.NumberBytesComeBack | src/igh/EthercatNativeBackend.cpp:403-434 | bytes shown as a number are written back as the same bytes |
| SdoCodec.DumpComesBack | src/igh/EthercatNativeBackend.cpp:438-443 | every byte string of 1 to 4096 bytes survives being dumped and written back |
| SdoCodec.HexTextComesBack | src/igh/EthercatNativeBackend.cpp:546-556 | whole hexadecimal bytes written and read come back as the same digits in lower case |
| SdoCodec.CharsComeBack | src/igh/EthercatNativeBackend.cpp:540-545 | Latin-1 text comes back up to the size of the buffer |
| SdoCodec.ShortValueIsDumped | src/igh/EthercatNativeBackend.cpp:403-443 | a value shorter than its type is dumped and still comes back as raw bytes |
| RtTest.RtTestController.Start | apps/ecatd/RtTestController.cpp:88-96 | a start forgets all cycles, with the extremes and counters of none |
| RtTest.RtTestController.Cycle | apps/ecatd/RtTestController.cpp:203-240 | one iteration keeps count, extremes, total and window those of all cycles measured |
| RtTest.RtTestController.GetTelemetry | apps/ecatd/RtTestController.cpp:128-170 | minimum and maximum are those of the cycles measured, the average is their mean, jitter is the larger of the two distances from it; all zero before the first cycle; the window holds the last 2000 cycles; errors do not exceed cycles |
| RtTest.WindowIsRotation | apps/ecatd/RtTestController.cpp:229-233 | the ring is a rotation of the last 2000 cycles, of all of them until it is full |
| RtTest.SnapshotsAreConsistent | apps/ecatd/RtTestController.cpp:128-140 | in every interleaving with the running loop a snapshot shows no more errors than cycles |
| RtTest.OtherOrderIsInconsistent | apps/ecatd/RtTestController.cpp:128-140 | reading in the other order would not |
| SdoEvidence.GroupSdoEvidence | apps/ecat-studio/models/SdoEvidenceModel.cpp:66-92 | one group per normalised value, holding exactly the sources of that value in order |
| SdoEvidence.GroupsMean | apps/ecat-studio/models/SdoEvidenceModel.cpp:66-92 | every item with a nonblank source and value is in exactly one group, that of its value |
| SdoEvidence.SourceFromItem | apps/ecat-studio/models/SdoEvidenceModel.cpp:66-92 | nothing else is in a group |
| SdoEvidence.SdoEvidenceHasConflict | apps/ecat-studio/models/SdoEvidenceModel.cpp:46-63 | true if and only if two nonblank values differ |
| SdoEvidence.ConflictIffGroups | apps/ecat-studio/models/SdoEvidenceModel.cpp:46-92 | there is more than one group if and only if the conflict scan finds a conflict among the valid items |
| SdoEvidence.ScanAgreesIff | apps/ecat-studio/models/SdoEvidenceModel.cpp:46-92 | whatever the values, the scan over all items finds a conflict exactly when there is more than one group, if and only if no source is blank or there is at most one item |
| SdoEvidence.OneGroupMatches | apps/ecat-studio/models/SdoEvidenceModel.cpp:107-115 | at most one group has the value of a write |
| SdoEvidence.ReviewSdoWriteDelta | apps/ecat-studio/models/SdoEvidenceModel.cpp:95-122 | the flags, the state, the matching sources, the differing groups and the facts of a review, each as what it says about the groups and the write |
| SdoEvidence.FactsAre | apps/ecat-studio/models/SdoEvidenceModel.cpp:108-110 | sources are joined by slashes; a fact is the joined sources, an equals sign and the value |
| SdoEvidence.NormalizedIs | apps/ecat-studio/utils/TextHelpers.cpp:25-27 | normalising takes off blanks around the value and spaces inside it and makes letters small |
| SdoEvidence.SpacesOut | apps/ecat-studio/utils/TextHelpers.cpp:25-27 | of the characters inside, exactly the spaces go |
| SdoEvidence.NormalizedEmpty | apps/ecat-studio/utils/TextHelpers.cpp:25-27 | only blank text normalises to nothing |
| SdoEvidence.NormalizedTrim | apps/ecat-studio/utils/TextHelpers.cpp:25-27 | trimming first changes nothing |
| WatchStartup.MatchForWatchRow | apps/ecat-studio/models/WatchStartupModel.cpp:20-49 | state, expected value and type, and number of matches of a watch row against the startup rows with its target, the last of which counts |
| WatchStartup.WatchAlone | apps/ecat-studio/models/WatchStartupModel.cpp:23-42 | no target and no startup row are said exactly of a watch row without a target and of one whose target no startup row has |
| WatchStartup.WatchBeside | apps/ecat-studio/models/WatchStartupModel.cpp:41-48 | beside the last startup row with its target: pending exactly while one value is blank, then a match exactly if the values are the same up to spaces and case, or else a difference |
| WatchStartup.EvaluateDeltas | apps/ecat-studio/models/WatchStartupModel.cpp:52-93 | the state of each startup row, and the value it was compared with, against the last watch row with its target |
| WatchStartup.StartupAlone | apps/ecat-studio/models/WatchStartupModel.cpp:70-82 | no target and no watch row, likewise from the startup side |
| WatchStartup.StartupBeside | apps/ecat-studio/models/WatchStartupModel.cpp:84-90 | beside the last watch row with its target, likewise from the startup side, with the trimmed value of that row |
| WatchStartup.SidesAgree | apps/ecat-studio/models/WatchStartupModel.cpp:20-93 | for every shared target the two sides report the same state for its last rows |
| WatchStartup.AllPairsAgree | apps/ecat-studio/models/WatchStartupModel.cpp:20-93 | with unique targets that is every pair of rows |
| WatchStartup.SummarizeDeltas | apps/ecat-studio/models/WatchStartupModel.cpp:96-118 | every delta is counted once |

## Left out

- Weak memory: the step machine is sequentially consistent; the acquire and release orders and the fences are not modelled.
- The cycle counter and the time stamp are stores of their own in the code; in the step machine they are not visible.
- Sockets, shared-memory and mapping calls, ecrt and scheduling calls: only their outcomes appear, as parameters or as arbitrary bus contents.
- Null header-field pointers in the mirror context, which the daemon never passes.
- FreeRunTables.Tables.BuildTables: a master or domain that cannot be had, before any table is filled, is not modelled.
- Client access by float, wait_next_cycle, the data pointer accessor and error texts.
- NekoEcatClient.Client.Attach: the layout version and segment name are parameters, not scanned from the text; partial mappings of an object smaller than its header says are accepted as the code does, and no access is modelled on them.
- The layout printer without a running segment, and entries whose offset pointer is null.
- LayoutExchange.LayoutSurvives: takes the direction of a printed entry to be "RxPDO" or "TxPDO", as the daemon's tables have it; the converse asks that neighbours differ in slave, subindex or offset, and NamesDecide needs no such thing.
- Regular expressions: cstruct parsing starts from the matched tables, and names added from the pdos listing are not modelled.
- Reconnecting, backoff, heartbeat and connect timeouts; the contents of request frames; slots of error and state signals that send requests of their own.
- JSON parsing of a line is a parameter of the client; framing across reconnections, where the buffer is kept, is not followed.
- Framing.RecvLine: a NUL byte inside a line, where C string functions would stop, is kept; allocation failure is not modelled.
- The derivation of PLC identifiers and suggested aliases (plcIdentifier) and of normalised targets (normalizeHexText): rows carry the results. QString::arg would also replace a "%1" inside a base name; PLC identifiers contain none.
- PlanAliases.KeptStaysApartIff: does not decide tables in which every renamed row is targeted more than once and a kept alias outside the names taken at the start ends in a suffix; there it takes the counts of all repetitions. DistinctNumbersDecide and TakenStayApart ask for no such thing.
- LayoutScan.ScanPrinted: the converse asks that neighbours differ in slave, subindex or offset, since a stray entry takes these from its neighbour; LayoutExchange.NamesDecide is exact without that.
- LayoutExchange.ReplySurvives: the same.
- Naming.BuildBulkNamingPlan: follows the alias only; tags and notes are not modelled.
- Case folding and white space are those of ASCII.
- Xml reading keeps line ends as they are and does not check the character range of XML 1.0.
- SDO number parsing accepts what QString::toUInt and toInt accept up to the digits, sign and surrounding white space.
- RtTest.RtTestController.Cycle: the total is unbounded; 64-bit overflow after centuries of cycles is not modelled. A restart between the two reads of one snapshot cannot happen, both run on the daemon's event loop.
- Alarm, plugin, dispatch, CiA 402, commissioning and user-interface code: easy members or user interface.
