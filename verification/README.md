# NXU in Dafny

A model of the NXU separation kernel and proofs about it: the page tables and the two-room kernel on
top of them, the device-tree decoder and the corroboration of boot facts, CPU bring-up with the
inter-processor echo, and the per-CPU evidence rings. `dafny verify dfyconfig.toml` checks all of it.

`nxu_fail` never returns (foundation/observe/fail.c, foundation/observe/halt.c). A method says so with
`ok == false`, the protocol with `halted`, a function with `None`, `Failed` or `Refused`: an absorbing
outcome after which nothing else happens. Words are the source's unsigned 32- and 64-bit integers;
every sum that can wrap is written out with its wrap.

## The modules

- **Words** - machine words and the wrap-safe ranges of include/nxu/range.h.
- **PageTables** - the pool-allocated four-level tree of mmu.c, as a class over the raw 64-bit words.
  Two ghost maps say what the words mean; a hardware walk over the raw words, with its look at the
  descriptor type and the access flag, is shown to be a lookup in a finite map, and the number of tables in
  use is a function of the mapped pages alone.
- **Space** - S5 ownership and the S6 identity map: what is owned and what is mapped, exactly, bit by bit.
- **Rooms**, **Separation** - the state machine of room.c on values. A room interval is an arbitrary
  list of functions from all that the room has seen since its entry to its next action, filtered by
  the leaf permissions.
  Every interval is shown to act on the room's own two pages as on a private machine; purge
  non-interference, the one-bit flow and the entry accounting follow for all schedules.
- **RoomKernel** - the same operations on mutable state (tables, RAM, `cur`, `grant`, ...), each proved
  equal to the state machine's step.
- **Boot** - from the S6 map to the first room entry, and where a pulse reads.
- **Entries** - what each kernel entry changes, in addresses, bytes and numbers.
- **A64**, **Blobs**, **Driver** - the room bodies of room_entry.S as machine words, a processor that fetches
  them from RAM through the tables, decodes and executes them, and `nxu_rooms_run` itself: which entries it
  makes, in which order, where they lead, and that no check it makes can fail.
- **Fdt**, **FdtDecoder** - the byte-level token walk of fdt.c, as a function and as the loops that
  compute it. **FdtTree**, **FdtBytes** - device trees, their meaning as a fold in post-order, their
  encoding as a structure block (Devicetree Specification v0.4, sections 5.4.1 and 5.4.2), and the
  round trip. **FdtMeaning** - the same fold field by field: which node and which property each boot fact
  comes from.
- **Facts** - S4 corroboration.
- **Cpus**, **Sgi** - S8 numbering, S10 redistributor walk, and the SGI word.
- **Smp** - S9 to S14 as interleaved atomic steps of one boot CPU and any number of secondaries, with
  the sleep in `wfi` as a place of its own.
- **Rings** - the chronicle and the black box against one unbounded history, also when a put is cut
  into by others.

## Where the code and its description part

- The repository's README says a pulse is taken only when its pointer lies in Room 0's data page. The
  code tests the pointer alone and then reads sixteen bytes. For a pointer inside the page the decision
  is a function of the sender's pages if and only if sixteen bytes fit between it and the end of the
  page (`Boot.PulseWithinPage`, `Boot.PulseAcrossPages`); a pointer outside the page is always rejected.
  Nothing is written because of it that `Separation.Outcome` does not allow, so the separation theorems
  hold for every pointer.
- The bring-up can lose a wake-up. A secondary takes interrupts from smp.c:70 on and looks at the request
  only behind a `wfi`; an SGI that it takes between that look and the `wfi` does not end the `wfi`.
  `Smp.LostRun` is a run with two CPUs in which both SGIs fall there: CPU 1 sleeps with the request
  unread, and the boot CPU can only spin until its time-out. `Smp.LostIff` says which schedules lose a
  wake-up: exactly those in which the CPU that is asked takes the SGI behind a request there. In every
  other schedule somebody always has a step to take (`Smp.CarefulMoves`).
- The chronicle is called append-only. S13 puts in it with interrupts on while the interrupt handler puts
  in it as well (signal.c:49, 60, 169). `Rings.CutAgreesIff` says for every place where an interrupt can
  cut into a put whether the two rings still stand for one history.
- The S6 map is meant to hold the image and the devices alone. No check keeps a device below 2^48, and
  the page tables drop the bits above: `Space.DenyIff` gives the exact condition.
- include/nxu/facts.h demands a source mask for every fact. A PSCI conduit can be accepted without any
  source: `Facts.FactTable.PsciWithoutSource` says exactly when. The three board files of the repository
  are not like that.
- An SGI reaches the CPU it names from another CPU if and only if the target's Aff0 is below 16 or is 40,
  and it is the only target if and only if its Aff0 is below 16 (`Sgi.ReachedIff`, `Sgi.OnlyTargetIff`):
  for Aff0 40 the shifted bit is the one that means everybody but the sender.
- A reg value whose entry size in bytes reaches 2^32 is read with the wrapped size. `FdtBytes.RegAt` says
  exactly when that makes a difference; cell counts below 2^29 never do (`FdtTree.SmallIsSane`).
- A 32-bit sum of device-tree offsets can wrap. The walk ends with `Wraps` there; see Left out.

## Model

| member | source | states |
|---|---|---|
| Words.RangeOkMeans | include/nxu/range.h:18-26 | the modular test passes exactly for non-empty ranges that end below 2^64 |
| Words.ContainsMeans | include/nxu/range.h:28-41 | the modular comparisons decide inclusion of the unwrapped byte sets, both ways |
| Words.OverlapMeans | include/nxu/range.h:43-53 | the modular comparisons decide whether the unwrapped byte sets meet, both ways |
| PageTables.SamePage | silicon/aarch64/translate/mmu.c:129-132 | two addresses get the same four indices exactly when they agree in bits 12 to 47; below 2^48, exactly when they agree above bit 11 |
| PageTables.LeafBits | silicon/aarch64/translate/mmu.c:67-89 | for each permission, what the hardware reads from the leaf word: valid, EL0 access, read-only, UXN, PXN, and the page's own frame |
| PageTables.MemoryType | silicon/aarch64/translate/mmu.c:67-97 | the leaf word is a page descriptor with the access flag set and inner shareable; its attribute index selects the Device-nGnRnE byte of MAIR for MMIO and the Normal write-back byte for all else |
| PageTables.WriteXorExecute | silicon/aarch64/translate/mmu.c:67-89 | in every leaf map each page maps to itself, no two pages share a frame, and a writable leaf has UXN and PXN set |
| PageTables.NodesCount | silicon/aarch64/translate/mmu.c:134-156 | the tables that a set of pages needs number 1 plus its distinct 9-, 18- and 27-bit prefixes |
| PageTables.Tables.NodesCounted | silicon/aarch64/translate/mmu.c:42-52 | between two map calls `nxu_pt_used` is exactly that number for the pages mapped so far |
| PageTables.MapThenLookup | silicon/aarch64/translate/mmu.c:200-213 | after a range is mapped, every address on a page that it meets reads its frame with the new attributes and every other address below 2^48 its old word |
| PageTables.HardwareSeesMap | silicon/aarch64/translate/mmu.c:116-159 | a hardware walk over the raw pool words, which needs a table or page descriptor at each level and the access flag at the leaf, succeeds exactly for the pages of the finite map and yields its word |
| PageTables.OneParent | silicon/aarch64/translate/mmu.c:134-156 | every table in use but the root hangs from exactly one entry of one upper table |
| PageTables.Tables.PtAlloc | silicon/aarch64/translate/mmu.c:42-52 | hands out the next slot, and fails exactly when all 64 are taken |
| PageTables.Tables.PtIndex | silicon/aarch64/translate/mmu.c:54-65 | finds the slot of a table address, and fails exactly when no slot in use has it |
| PageTables.Tables.Follow | silicon/aarch64/translate/mmu.c:134-156 | a descriptor leads to the slot of the child table; the search in pt_index never misses |
| PageTables.Tables.InitPool | silicon/aarch64/translate/mmu.c:91-113 | on the zeroed pool: only the root is in use and nothing is mapped; TTBR0 is the root table, MAIR is 0xFF00, and TCR selects 48 address bits and 4 KiB pages |
| PageTables.Tables.MapPage | silicon/aarch64/translate/mmu.c:116-159 | adds exactly one page to the map, or fails exactly when its tables do not fit in the pool |
| PageTables.Tables.Map | silicon/aarch64/translate/mmu.c:200-213 | the finite map gains exactly the pages of the range; it fails exactly for a range that wraps, is empty or unaligned, or needs too many tables |
| PageTables.Tables.Leaf | silicon/aarch64/translate/mmu.c:169-198 | the word of the finite map, or 0 |
| Space.Table.AddOwner | foundation/space/ownership.c:25-37 | appends one region, and fails exactly for a wrapping or empty range or a full table |
| Space.Table.OwnerOf | foundation/space/ownership.c:39-58 | the owner of the last among the smallest regions that contain the range, or unknown when none does |
| Space.Table.Ownership | foundation/space/ownership.c:60-91 | it fails exactly when an accepted range is empty or wraps or there are more than sixteen; else each accepted device has an MMIO region, the image one of its own and a valid dtb a reserved one, each with the fact's base and the least whole number of pages that holds it, each RAM range is the kernel's as it stands, and no region is anything else |
| Space.DecidesOnce | foundation/space/ownership.c:46-56 | at most one region decides who owns a range |
| Space.MapImage | foundation/space/mmu_policy.c:44-57 | maps the image's sections by the plan; when it fails the whole plan does not fit |
| Space.MapDevices | foundation/space/mmu_policy.c:59-66 | maps every MMIO region by the plan; when it fails the whole plan does not fit |
| Space.Arm | foundation/space/mmu_policy.c:34-73 | S6 succeeds exactly when every mapping call is legal, the tables of all of them fit the pool together, the first image page is owned by the image, and the exception level is 1; then the map is that of the plan and the translation registers are set |
| Space.Sections | foundation/space/mmu_policy.c:44-50 | the section ends of a linked image are whole pages, in order, and end with its last page |
| Space.DeviceFrames | foundation/space/mmu_policy.c:61-64 | the whole-page range mapped for a device meets exactly the pages that the device meets |
| Space.DefaultDeny | foundation/space/mmu_policy.c:52-66 | whenever the calls are legal, as they are whenever S6 succeeds, the map holds for every address below 2^48 the word of a device that meets its page, else that of the image section, else nothing |
| Space.DenyIff | foundation/space/mmu_policy.c:59-66 | for a linked image the map is what it is meant to be, page for page, if and only if no device byte from 2^48 up shares its low 48 bits with a page that holds no device |
| Space.MapBits | foundation/space/mmu_policy.c:34-73 | then, bit by bit: pages of devices are writable device memory, the text is read-only and executable, read-only data is neither, the rest of the image is writable and not executable, nothing is open to EL0, and no other address below 2^48 is mapped |
| Space.DevicesMapped | foundation/space/mmu_policy.c:59-66 | S5 and S6 together: every byte below 2^48 of every accepted device reads its own frame as device memory |
| RoomKernel.Machine.MapOne | foundation/room/room.c:81-98 | mapping one room page; no table is allocated when the page is already mapped |
| RoomKernel.Machine.MakePriv | foundation/room/room.c:81-86 | both pages of the room become kernel-only; it cannot fail once they are mapped, and fails otherwise exactly when the pool is too small |
| RoomKernel.Machine.Open | foundation/room/room.c:88-98 | both rooms kernel-only, then the entered room's two pages open to EL0 |
| RoomKernel.Machine.ClearPage | foundation/room/room.c:100-109 | the page becomes zero and no other byte changes |
| RoomKernel.Machine.CopyBlob | foundation/room/room.c:111-124 | copies 1 to 64 bytes and changes no other byte, or fails |
| RoomKernel.Machine.MakeSealed | foundation/room/room.c:136-143 | the running room's pages become kernel-only, without allocating |
| RoomKernel.Machine.TakePulse | foundation/room/room.c:145-170 | the whole new state after an accepted or rejected pulse |
| RoomKernel.Machine.Consume | foundation/room/room.c:172-180 | entering Room 1 spends the grant, and fails exactly when there is none |
| RoomKernel.Machine.Refuse | foundation/room/room.c:182-188 | passes exactly when another room than 0 is asked about and no entry is owed to it |
| RoomKernel.Machine.TakeException | foundation/room/room.c:190-213 | a pulse resumes the room; every other exception seals it |
| RoomKernel.Machine.TakeIrq | foundation/room/room.c:215-238 | every interrupt seals the room, with the reason that its number gives |
| RoomKernel.Machine.Act | silicon/aarch64/exception/vectors.S:130-152 | one EL0 access is decided by the words that nxu_mmu_leaf finds; a refused one takes the exception path |
| RoomKernel.Machine.RunRoom | silicon/aarch64/exception/vectors.S:130-152 | EL0 goes on until an action leaves, and then the interrupt ends it |
| RoomKernel.Machine.EnterRoom | foundation/room/room.c:240-289 | run() up to the eret, with the exact conditions under which it fails, and no table allocated |
| RoomKernel.Machine.RunInterval | foundation/room/room.c:240-293 | a whole entry of a room is the state machine's entry followed by its actions |
| Entries.PulseMeans | foundation/room/room.c:145-170 | a pulse is taken exactly when Room 0 runs, the pointer lies in its data page and the sixteen bytes there are the words 1 and 0x5055; then just the eight bytes of 0x5055 are written, at byte 8 of Room 1's data page; else one more is rejected and nothing else changes |
| Entries.ExceptionMeans | foundation/room/room.c:190-213 | an SVC with immediate 1 is a pulse and resumes; every other exception hides the room's two pages, changes no other address and no byte of RAM, and is a leave exactly for an SVC with immediate 0 |
| Entries.InterruptMeans | foundation/room/room.c:215-238 | an interrupt does the same; 30 is the timer's, another below 1020 foreign, and from 1020 on it counts as a fault |
| Entries.EnterMeans | foundation/room/room.c:172-289 | run() fails exactly for a Room 1 that is owed nothing, code of 0 or more than 64 bytes, or an unarmed timer; else it says of every byte of RAM what it holds, the grant is spent by Room 1, and exactly the room's two pages are open |
| Rooms.ExecuteIsPerform | foundation/room/room.c:240-293 | a behaviour that reacts to what it sees equals the list of actions it turns into |
| Separation.OpenExact | foundation/room/room.c:88-98 | exclusive visibility: from a closed map, exactly the code page can be executed, exactly the data page written, exactly the two read, each at its own address |
| Separation.SealExact | foundation/room/room.c:136-143 | after a seal no address at all is accessible to EL0 |
| Separation.PrivClosed | foundation/room/room.c:81-86 | making a room kernel-only keeps everything hidden from EL0 |
| Separation.SeesOwnPages | foundation/room/room.c:88-98 | what a room reads through the tables is its own two pages and nothing else |
| Separation.ExecuteOutcome | foundation/room/room.c:145-170 | any behaviour at all: the room's pages as on its private machine, the other room's pages unchanged but for the payload word of a delivered pulse, grant and delivery count accordingly, everything sealed |
| Separation.RunOutcome | foundation/room/room.c:240-293 | the same for a whole entry, with the kernel's clearing and copying |
| Separation.Room0Private | foundation/room/room.c:240-293 | over any schedule that does not halt, Room 0's pages are those of Room 0's own intervals on a private machine, where a room remembers all it saw since its entry |
| Separation.PurgeRuns | foundation/room/room.c:172-180 | deleting every Room 1 interval leaves a legal schedule |
| Separation.Purge | foundation/room/room.c:240-293 | deleting every Room 1 interval leaves Room 0's pages exactly the same at the end |
| Separation.Room1FromEvents | foundation/room/room.c:145-170 | Room 1's pages are a function of its own intervals and of which Room 0 intervals delivered a pulse |
| Separation.OneBitFlow | foundation/room/room.c:145-170 | two runs that agree on these end with identical Room 1 pages |
| Separation.EntryAccounting | foundation/room/room.c:145-188 | entries of Room 1 plus the entry owed equal the entry owed at first plus the pulses delivered while none was owed |
| Separation.OwedAlways | foundation/room/room.c:165-168 | whenever an entry is owed, word 1 of Room 1's data page is the payload, and nothing is open to EL0 between entries |
| Separation.AsRoom1LeftIt | foundation/room/room.c:145-170 | until Room 1 is entered again its pages are as it left them but for the payload word, which was written exactly when an entry is owed |
| Separation.VisibleAtEveryStep | foundation/room/room.c:88-98 | before every action of an entry exactly the entered room's two pages are open to EL0 |
| Boot.StartClosed | foundation/room/room.c:416-417 | nothing that S6 maps is open to EL0, and the room pages start kernel-only |
| Boot.AfterS6 | foundation/space/mmu_policy.c:52-66 | the S6 map meets what the room driver relies on: closed to EL0, with the image mapped |
| Boot.FourMorePages | foundation/room/room.c:407-417 | the driver adds exactly four pages to the S6 map, pairwise distinct, in RAM and beyond the image |
| Boot.PulseWithinPage | foundation/room/room.c:126-159 | when both words lie in the sender's page, the decision depends on that page alone |
| Boot.PulseAcrossPages | foundation/room/room.c:126-159 | otherwise two memories with the same Room 0 pages are decided differently |
| Boot.StoreThenLoad | foundation/room/room.c:157-166 | a 64-bit word that was stored little-endian is read back |
| A64.DecodeEncode | foundation/room/room_entry.S:4-98 | the decoder gives back every instruction from its 32-bit encoding |
| Blobs.BodyWords | foundation/room/room_entry.S:4-98 | the bodies as machine words |
| Blobs.FetchOwn | foundation/room/room_entry.S:100-109 | a room that was entered with a body in its code page fetches that body's instructions from RAM through the tables |
| Blobs.RunRefused | foundation/room/room_entry.S:4-29 | entering a room whose first access is out of reach ends as a fault with nothing changed but its own code page and the grant |
| Blobs.RunSend | foundation/room/room_entry.S:31-43 | the sending body delivers the payload: Room 1's word 1, the grant and the count change, and no canary |
| Blobs.RunMalformed | foundation/room/room_entry.S:45-84 | a message to another destination, with another payload or from Room 1 is rejected and counted |
| Blobs.RunBad | foundation/room/room_entry.S:67-73 | a pulse whose pointer lies outside the data page is rejected and counted |
| Blobs.RunRecv | foundation/room/room_entry.S:86-92 | the receiving body copies the payload word to the next word |
| Blobs.RunSpin | foundation/room/room_entry.S:94-98 | a body that never leaves is ended by the interrupt, with the reason of that interrupt |
| Driver.Interpret | foundation/room/room_entry.S:100-113 | the loop that fetches, decodes and executes on the mutable machine computes the execution of what is in RAM |
| Driver.Boundary | foundation/room/room.c:342-370 | the boundary check passes and leaves the tables closed again |
| Driver.ContainRoom0 | foundation/room/room.c:433-461 | all of Room 0's trespasses are contained and every check between them passes |
| Driver.Rejections | foundation/room/room.c:463-476 | the three bad messages are rejected, counted, and change nothing the kernel looks at |
| Driver.SendOnce | foundation/room/room.c:387-397 | one delivery, counted once |
| Driver.Deliver | foundation/room/room.c:478-489 | two sends are one entry, and the receiver finds the payload |
| Driver.ContainRoom1 | foundation/room/room.c:491-515 | all of Room 1's trespasses are contained and every check between them passes; that the compare kept its value (lines 514-515) is assumed |
| Driver.ReplyAndPreempt | foundation/room/room.c:517-538 | Room 1 cannot send, and it is preempted by the timer and by a foreign interrupt |
| Driver.Drive | foundation/room/room.c:416-538 | from the mapped image on, it makes exactly the entries of the script in order, and ends where they lead: both canaries in place, words 1, 2 and 3 of Room 1's page 0x5055, 0x5055 and 0, ten pulses delivered and four rejected, no entry owed, the last room ended by the timer |
| Driver.RoomsRun | foundation/room/room.c:399-541 | with the timer checks assumed to pass, the driver reaches nxu_fail exactly when the four pages do not fit in RAM or their tables not in the pool; else the entries made are the script's, ten pulses were delivered and four rejected, and RAM holds the canaries, the payload and its copy byte by byte |
| Fdt.DecodedFit | foundation/facts/fdt.c:95-121 | from any bytes: at most eight memory ranges, none wrapping, and at most eight masked CPU numbers without doubles |
| FdtTree.NopsIgnored | foundation/facts/fdt.c:230-231 | NOP tokens make no difference |
| FdtTree.TreeRuns | foundation/facts/fdt.c:234-280 | running a subtree restores the node stack and adds its nodes in post-order, or fails when it is too high for the stack |
| FdtTree.EffectsCommute | foundation/facts/fdt.c:296-323 | two properties of different names can change places |
| FdtTree.OrderIrrelevant | foundation/facts/fdt.c:296-323 | the properties of a node in any order describe the same node, when no name comes twice |
| FdtTree.AlikeFoldsAlike | foundation/facts/fdt.c:242-280 | trees that differ in node names and in the order of properties have the same fold and height |
| FdtMeaning.FoldMeans | foundation/facts/fdt.c:242-280 | the fold succeeds exactly when no memory entry is empty or wraps and there are at most eight of them and of CPUs; then mem is the entries of the memory nodes in order, cpus the masked first addresses of the CPU nodes in order of first appearance, gicd and gicr the two entries of the first sized GICv3 node (else of the last with two), the console that of the last UART node, the conduit that of the last PSCI node |
| FdtMeaning.NodeMeans | foundation/facts/fdt.c:296-323 | which properties make a node a memory, CPU, GIC, UART or PSCI node, and give it its cell counts, entries and conduit |
| FdtMeaning.EntryCount | foundation/facts/fdt.c:123-151 | a reg value has as many entries as fit in its length, at most four |
| FdtMeaning.EntriesMean | foundation/facts/fdt.c:123-151 | entry k is what stands at k times the entry size |
| FdtMeaning.BlobMeans | foundation/facts/fdt.c:153-330 | the whole way from the bytes of a blob to the fields of the candidate: exactly when S3 succeeds, and what each field is, by the tree's nodes |
| FdtBytes.CellsAt | foundation/facts/fdt.c:51-60 | cells are read as one big-endian number, of which the low 64 bits stay |
| FdtBytes.RegAt | foundation/facts/fdt.c:123-151 | a reg value is read as whole entries from the front, at most four, without size cells as one address or not at all, if and only if its entry size does not wrap or the wrapped size gives the same |
| FdtBytes.TextAt | foundation/facts/fdt.c:62-70 | a string comparison compares the value's text up to its first NUL, or up to the NUL that follows every value in a structure block |
| FdtBytes.HasAt | foundation/facts/fdt.c:72-87 | the list search finds a string exactly when it is one of the strings listed, the last of which may end with the NUL behind the value |
| FdtBytes.EffectAt | foundation/facts/fdt.c:296-323 | the decoder makes of a property's bytes what the property means |
| FdtBytes.WalkRuns | foundation/facts/fdt.c:226-326 | walking the bytes of any encoded token list is running the tokens |
| FdtBytes.DecodeEncode | foundation/facts/fdt.c:201-329 | decoding the encoding of any tree without wrapped entry sizes, NOPs anywhere, is the post-order fold; it fails exactly when the tree is more than 15 high or the fold fails |
| FdtBytes.BlobRoundTrip | foundation/facts/fdt.c:153-330 | the same for a whole blob with its header, at an aligned pointer and clear of the image |
| Fdt.HeaderAccepted | foundation/facts/fdt.c:182-208 | a header is accepted exactly when the pointer is aligned, the magic number is there, the size is legal, the blob shares no byte with the image, and both blocks lie inside it (for offset sums that wrap see Fdt.DecodedFit under Left out) |
| FdtTree.SmallIsSane | foundation/facts/fdt.c:139-142 | with cell counts below 2^29 no entry size of the tree wraps |
| FdtBytes.LayoutIrrelevant | foundation/facts/fdt.c:226-326 | blobs whose trees differ in node names, property order, NOPs and string offsets alone decode to the same candidate |
| FdtDecoder.ReadCells | foundation/facts/fdt.c:51-60 | the loop computes the value of the cells, with its 32-bit index arithmetic |
| FdtDecoder.SameString | foundation/facts/fdt.c:62-70 | the loop decides whether the literal and its NUL are there |
| FdtDecoder.HasString | foundation/facts/fdt.c:72-87 | the nested loops decide membership in the string list |
| FdtDecoder.ReadReg | foundation/facts/fdt.c:123-151 | the loop fills the entries that the walk describes |
| FdtDecoder.ReadProp | foundation/facts/fdt.c:296-323 | the branches on one property |
| FdtDecoder.Decoder.AddOne | foundation/facts/fdt.c:107-121 | one CPU is added in place, masked, unless it is there; it fails exactly for a ninth |
| FdtDecoder.Decoder.Close | foundation/facts/fdt.c:256-280 | the end of a node adds to the candidate what the node says, field by field: gicd is its first entry and gicr its second |
| FdtDecoder.Decoder.Token | foundation/facts/fdt.c:226-326 | one round of the loop on the node stack in place is one step of the walk |
| FdtDecoder.Decoder.Run | foundation/facts/fdt.c:226-326 | the loop ends, with the outcome of the walk |
| FdtDecoder.Probe | foundation/facts/fdt.c:153-330 | the outcome is that of the header check (Fdt.HeaderAccepted) and of the walk, and the candidate is valid exactly when a blob was handed over |
| Facts.FactTable.AcceptMemory | foundation/facts/facts.c:80-107 | exactly when it succeeds, and that every accepted range is what each source that speaks for it says, with mask and grade, the image inside the first |
| Facts.FactTable.Merge | foundation/facts/facts.c:29-61 | fails exactly when two sources differ or a required one is missing; the fact equals every source that speaks |
| Facts.FactTable.AcceptControllers | foundation/facts/facts.c:114-129 | the same for the three controllers together |
| Facts.FactTable.AcceptPsci | foundation/facts/facts.c:134-149 | fails exactly when both sources name conduits that differ |
| Facts.FactTable.AcceptCpus | foundation/facts/facts.c:153-226 | exactly when it succeeds, and that every accepted CPU is on the board's list when there is one, with mask and grade, the boot CPU among them |
| Facts.FactTable.AcceptTimer | foundation/facts/facts.c:228-238 | fails exactly for another timer interrupt than 30 or no frequency at all |
| Facts.FactTable.Accept | foundation/facts/facts.c:63-240 | S4 returns exactly when all sources agree, condition by condition; the table it leaves is corroborated, and the timer is interrupt 30 with the counter's frequency or else the board's |
| Facts.FactTable.ObserveDistributor | foundation/signal/signal.c:91-94 | the observed distributor keeps its range and is well graded afterwards |
| Facts.FactTable.Corroboration | foundation/facts/facts.c:80-226 | in a table that S4 leaves, the mask of every fact names just the sources that speak for it, the fact is what each of them says, and it is CORROBORATED exactly when two are named; the CPUs are the named ones in order, masked, the boot CPU among them and observed; the image is in RAM |
| Facts.CpusFitS8 | foundation/facts/facts.c:179-226 | the accepted CPUs are masked, distinct when the list that named them was, and hold the boot CPU |
| Facts.FactTable.PsciWithoutSource | foundation/facts/facts.c:139-147 | exactly when a conduit is accepted with an empty source mask |
| Facts.S3FitsS4 | foundation/facts/facts.c:80-226 | what S3 leaves is what S4 asks for: no list is too long, the CPUs are distinct once masked, and the timer interrupt is never refused |
| Cpus.AffinityInjective | foundation/signal/signal.c:109-111 | the packing of MPIDR affinity fields is injective on masked values |
| Cpus.MaskBits | foundation/facts/facts.c:180 | the mask keeps bits 39:32 and 23:0 and clears all others |
| Cpus.NumberingIsBijection | foundation/cpu/cpu.c:60-78 | S8 renumbers distinct CPUs one to one onto 0 to n-1, with the boot CPU at 0 |
| Cpus.NumberingInOrder | foundation/cpu/cpu.c:60-78 | CPUs other than the boot CPU are numbered in the order of their facts |
| Cpus.Present | foundation/cpu/cpu.c:56-78 | the loop builds that numbering, and fails exactly for an empty or too long list |
| Cpus.Pigeonhole | foundation/signal/signal.c:127-132 | as many finds as CPUs and none without one leave exactly one frame for each |
| Cpus.ChecksMeanBijection | foundation/signal/signal.c:127-132 | the two checks after the walk pass exactly when every CPU has one frame, at an address other than 0 |
| Cpus.FramesDistinct | foundation/signal/signal.c:105-126 | no two CPUs share a frame |
| Cpus.MatchFrames | foundation/signal/signal.c:96-132 | in terms of GICR_TYPER itself: frames are 0x20000 apart and read up to the first with bit 4 set; the walk succeeds exactly when there is one in the region and for every CPU exactly one frame read has its Aff3.Aff2.Aff1.Aff0 in the upper half, which is its gicr; no two are equal |
| Sgi.OneTarget | silicon/aarch64/gicv3/gicv3.c:98-116 | for Aff0 below 16 the word has IRM 0 and the right INTID, and exactly the named CPU is its target |
| Sgi.ReachedIff | silicon/aarch64/gicv3/gicv3.c:107-112 | the word reaches the CPU it is meant for, from another CPU, exactly when its Aff0 is below 16 or is 40 |
| Sgi.OnlyTargetIff | silicon/aarch64/gicv3/gicv3.c:107-112 | it is the only target exactly when its Aff0 is below 16 |
| Sgi.HighAff0 | silicon/aarch64/gicv3/gicv3.c:98-116 | from 16 on nobody is reached, but for Aff0 40, where everybody but the sender is |
| Smp.StepKeeps | foundation/cpu/smp.c:37-141 | every atomic step of any CPU keeps the invariant that ties states, lives, interrupts and requests to where the boot CPU stands |
| Smp.RunKeeps | foundation/cpu/smp.c:37-141 | so does every run, whatever the interleaving |
| Smp.BringUp | foundation/cpu/smp.c:106-141 | in every interleaving: at most one CPU STARTING, lower ones ONLINE, higher ones AVAILABLE; ONLINE implies WAITING; all ONLINE after S12; no freeze check fails; no SGI is taken unbound |
| Smp.BoundInOrder | foundation/cpu/cpu.c:135-153 | during S9 the CPUs become INITIALIZED and AVAILABLE one after the other |
| Smp.SignalsBound | foundation/time/time.c:120-123 | over every run: the timer is enabled and the kernel's from S11 on and not before, the SGI from S13 on, the present set frozen from the end of S10 on |
| Smp.OnlineAt1 | foundation/cpu/smp.c:53-55 | in every interleaving a secondary that is ONLINE found exception level 1 when it came in |
| Smp.Forward | foundation/cpu/cpu.c:135-151 | over any run a CPU's state only moves forward |
| Smp.StepForward | foundation/cpu/smp.c:126-139 | one step moves no CPU back, and a secondary by one rung at most |
| Smp.Frozen | foundation/observe/freeze.c:54-75 | when the freeze is done the present set is frozen, and every present CPU is ONLINE and WAITING, at the control level and on the one table |
| Smp.FreezeChecks | foundation/observe/freeze.c:41-67 | from any state at all, exactly when each check of the freeze lets it go on |
| Smp.FreezeCore | foundation/observe/freeze.c:41-67 | from any state that satisfies the invariant, no check of the freeze fails |
| Smp.EchoOnce | foundation/cpu/smp.c:71-81 | requests are cleared and answered in order, once each, by the CPUs they name; at most one is open |
| Smp.ClearedByNamed | foundation/cpu/smp.c:75-77 | an open request is closed by no step but one of the CPU it names |
| Smp.LookTakesUp | foundation/cpu/smp.c:71-76 | a secondary that looks takes up the request exactly when it is named and has counted an SGI; the second always holds when the first does |
| Smp.AnswerSeen | foundation/signal/signal.c:212-243 | when the boot CPU leaves its wait without halting, the CPU it asked has cleared the request and answered |
| Smp.ReplyFindsQuiet | foundation/cpu/smp.c:77-79 | an answer finds no SGI still on its way to the boot CPU, so none is lost by merging |
| Smp.SgisCounted | foundation/signal/signal.c:183-243 | when S13 is over every SGI was taken and counted: one at each CPU, one more at each CPU asked, one at the boot CPU for each answer |
| Smp.NoDeadlock | foundation/signal/signal.c:150-170 | short of the freeze, unless the boot CPU gave up or a secondary came up at a wrong exception level, a step other than giving up exists if and only if the state is not dead: the boot CPU waits and every secondary sleeps with nothing pending |
| Smp.DeadStays | foundation/cpu/smp.c:71-81 | in a dead state no step but giving up, or a wfi that ends by itself, changes anything |
| Smp.LostRun | foundation/signal/signal.c:212-226 | with two CPUs there is a run into a dead state: the request is written, its SGI taken, and CPU 1 asleep |
| Smp.LostIff | foundation/cpu/smp.c:70-75 | a wake-up is lost exactly when the CPU asked takes the SGI behind the request between its last look and its wfi |
| Smp.LostForever | foundation/cpu/smp.c:71-81 | a lost wake-up stays lost, whatever is done short of giving up |
| Smp.CarefulMoves | foundation/cpu/smp.c:71-81 | in a schedule without such a step somebody always has a step to take |
| Rings.Evidence.Put | foundation/observe/chronicle.c:67-84 | undisturbed, it leaves both rings and both failure slots in agreement with the history extended by one put |
| Rings.Evidence.Fail | foundation/observe/chronicle.c:86-98 | the same for a failure, which enters the chronicle once and the black box twice and stands in both failure slots |
| Rings.BothGrow | foundation/observe/chronicle.c:67-98 | what one more event adds to the record lists: a numbered record, one or two box entries, and the failure it leaves behind |
| Rings.Evidence.BoxPut | foundation/observe/bbox.c:82-101 | writing in place keeps the ring in step with the list of entries: one slot changes, next to the last one written, and the count wraps at 2^32 |
| Rings.Evidence.Dump | foundation/observe/bbox.c:133-162 | the dump lists the last min(count, 32) entries oldest first, also once the 32-bit count has wrapped, and then the latest failure |
| Rings.CutAgreesIff | foundation/observe/chronicle.c:67-84 | a put cut into by the puts of an interrupt leaves both rings in agreement with some order of all of them if and only if the cut is before it, after it, between the index and the count of the black box, or between the rings with nothing but equal entries |
| Rings.RingPut | foundation/observe/chronicle.c:75-82 | a ring of any capacity that holds the last items of a list holds those of the extended list |
| Rings.FailureIsLatest | foundation/observe/bbox.c:103-115 | the failure slot shows a failure exactly when it is the latest one, and none exactly when there was none |
| Rings.PutsKeepFailure | foundation/observe/bbox.c:82-101 | later puts never change the failure slot |
| Rings.RingsAgree | foundation/observe/chronicle.c:67-98 | where no failure fell among the last n events, both rings list the same entries |

## Left out

- Console text, the UART, the sink and debug output; the image-header check, S0 and S1.
- Barriers, TLB and cache maintenance: a table write takes effect at once, and shared memory is sequentially consistent.
- The EL3 and EL2 drop, the diagnostic vectors and the entry assembly: zeroed BSS and the intake record are the initial state.
- Addresses from 2^48 up in RAM and in the page-table pool. For image and devices see Space.DefaultDeny and Space.DenyIff.
- Space.Arm: of nxu_mmu_enable only the exception-level check is modelled, not the writes to the system registers; the values for them are.
- Separation.Purge: is about memory and time is not in it. The EL0 registers are not either: x2 to x30 survive from one entry to the next, x1 to x17 come back from a pulse with what the kernel left in them (vectors.S:130-141), and the kernel itself resumes with x19 to x28 as the room left them, since nxu_room_enter saves x29 and x30 alone (room_entry.S:100-113). A room that tells another something through a register, or that changes one of those that the kernel's code relies on, is outside the model. The same holds of Separation.OneBitFlow and Separation.Room0Private.
- Driver.RoomsRun: takes the counter to have reached the compare exactly when the timer interrupt ended the room, and EL0's access to the timer to be trapped. The checks of room.c that the compare is still ahead when a room is entered (lines 279-287, `armed`), that it kept its value, that CNTKCTL reads back and that time has passed (check_time) are assumed to pass. A slice lasts for at least sixteen instructions (`Long`), more than any body has before it leaves. x2 to x30 hold anything when a room is entered, and x1 to x17 anything behind a pulse.
- RoomKernel.Machine.Act: checks each byte of an access on its own, with the word that nxu_mmu_leaf reads; alignment faults of data accesses are not modelled.
- A64.DecodeEncode: knows the eight forms that the bodies use; any other word counts as an unknown instruction, which ends the interval as a fault.
- Fdt.DecodedFit: and every other statement on arbitrary bytes ends where a 32-bit sum of offsets wraps, since the code's loop need not end from there.
- FdtBytes.DecodeEncode: is about blobs as the Devicetree Specification lays them out: zero bytes as padding and a structure block at a multiple of 4 (sections 5.4.1 and 5.6); the decoder itself looks at neither. When the entry size of some reg wraps nothing is claimed for the tree as a whole.
- Facts.FactTable.Accept: does not model the chronicle records that S4 writes, nor `state` of the accepted CPUs.
- Cpus.Present: does not model the per-cluster counts that S8 only logs.
- Sgi.OneTarget: an Aff0 from 64 up makes the C shift undefined and is not modelled.
- Smp.Frozen: the control level is the one that nxu_mmu_enable has checked to be 1 (Space.Arm), and is a constant here.
- Smp.BringUp: is modelled on values as a transition system, since its point is the interleaving; timeouts, PSCI and power control are choices of the environment, exceptions on a running CPU are not modelled, and every SGI is taken to reach its target (Aff0 below 16, see Sgi.OneTarget).
- Smp.NoDeadlock: that the spin waits end in time is not claimed. A wfi may also end for no reason, as the architecture allows; that step is in the model (`Wake`), but nobody can count on it, so it does not count as a step to take.
- Rings.Evidence.Put: models one CPU's two rings and an undisturbed put; choosing the rings by the logical number is not modelled.
- Rings.CutAgreesIff: is about one interruption of one put by fewer than 32 puts, so that both rings still show all of them. An interruption of nxu_chronicle_fail is not modelled; the kernel stops after it.
- The gate records and the power-controller write of smp.c, beyond that a released CPU may arrive once.
