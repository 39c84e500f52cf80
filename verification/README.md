# Verified model of the laplus kernel's algorithmic core

laplus is a small x86-64 operating system kernel. This project models, in Dafny, the parts of it that keep
non-trivial state, with the branches, edge cases and constants of the code, and proves what those parts are for:

- **Page maps** (`PageTables`, `LinearAddresses`, `PageMapping`, `PageReclaim`, `PageSharing`, `Paging`,
  `PageOwnership`, `AppSpace`, `AppInvariant`, `ImageSharing`, `KernelMap`, `AppMemory`). Four-level page maps are radix
  trees threaded through physical frames. The methods of `Paging.Pager` change table entries in place; relations between two memories say
  exactly what mapping, sharing, replacing and sweeping do. `AppSpace` is the flat memory an application sees, and
  `AppMemory.App` proves that page faults, copy-on-write, demand paging, file mappings and the kernel's stores through
  pointers of the application implement it for every sequence of steps, and what a whole run
  gives back and leaves behind.
- **Huffman decoding of the bundled inflate** (`Powers`, `Division`, `HuffmanCodes`, `HuffmanPrefix`, `BitWords`,
  `HuffmanTables`, `HuffmanBuild`, `Inflate`). Canonical codes of section 3.2.2 of RFC 1951 define what decoding means;
  the table builder, the bit reader, the 9-bit fast table and the slow left-aligned comparison are proved to decode.
- **TCP send side and closing** (`TimeVals`, `TcpState`, `TcpSafety`, `TcpLimits`, `TcpWire`, `TcpConversation`, `Tcp`).
  `TcpState` gives each event of sections 3.2, 3.3 and 3.9 of RFC 793 as the code treats it, as a function on values; every
  handler of `Tcp.Pcb` is proved to do that, and invariants, losses and bounds are proved over all runs, as is what goes
  out on the wire. Two blocks that talk to each other open, transfer and close.
- **xHCI rings and port configuration** (`RingPositions`, `TransferRing`, `XhciRings`, `PortPhases`). Producer and consumer
  interleave after every single 32-bit write, with a consumer that follows cycle bits and Link TRBs as sections 4.9.2
  and 4.9.3 of the xHCI specification say.
- **FAT32 chains and file descriptors** (`ClusterChains`, `WritePlans`, `FileBytes`, `Fat`, `FatFiles`) and **mapped files**
  (`MappedFiles`). Chains are lists in an array; a file is the concatenation of its clusters.
- **Task scheduler** (`Scheduling`, `SchedulerRuns`, `TaskManagement`), **timers** (`Timers`) and **pipes** (`Pipes`).
- **Window compositor** (`Geometry`, `FrameBuffers`, `Composition`, `LayerManagement`). Incremental redraw against a full
  painter's-order composite.
- **Frame bitmap** (`FrameBitmap`) and **Internet checksum** (`InternetChecksum`).

Objects whose methods update fields in the source are classes here, proved against functions on values; the lemmas
about those functions carry the properties over whole runs. Where a property one would expect of the code is false, the
code is kept as it is, and a lemma gives the exact condition under which the property holds; the inputs that fail are
those that miss it, and lemmas named `...Example` and their like give some in full. These are the cases:

- `CleanPageMap` reuses the lower parts of its start address in every subtable; it frees everything it should iff no
  subtable holds an owning entry before that index (`PageReclaim.CleanComplete`, `PageReclaim.LeakExample`).
- Mapping over a page that is shared with a cached image makes the application own the shared frame
  (`PageOwnership.SetupStaysApart`).
- The kernel ignores that a page is read-only, so a `MapFile` whose pointer lies in a page still shared with the cached
  image stores into the image. A step keeps the image and all other frames iff it changes no page still shared
  (`AppMemory.App.Perform`, `AppSpace.ImageKeptIff`, `AppSpace.CarefulIff`, `AppSpace.SharedStoreExample`); what a whole
  run leaves behind is in `AppMemory.App.ExecuteFile`.
- The kernel's half of the address space is mapped for the kernel only, but the page fault handler serves a user-mode
  write there by CopyOnePage, which takes the first 4 KiB of the 2 MiB page for a table, to no avail; the write is tried
  again until no frame is left, and none of them comes back. A system call stores straight through such a pointer. Frames
  and memory of the rest of the system are conserved by a run that is cleaned up iff the image is as it was and, if the
  run ended with such a write, no frame was free (`AppMemory.ConservedIff`, `AppMemory.App.WriteKernelHalf`,
  `AppMemory.App.StoreKernelHalf`, `AppMemory.NullWriteExample`); a run strays iff a step makes such a write
  (`AppMemory.StartStraysIff`), and every other access there is refused (`AppSpace.KernelHalfRefused`).
- When memory runs out while an application starts, or its arguments do not fit, `ExecuteFile` returns without giving
  its frames back; nothing leaks iff there was no free frame at the start (`AppMemory.App.ExecuteFile`).
- An acknowledgment inside a queued segment, or a simultaneous open, breaks the retransmission queue
  (`TcpSafety.StepFaithful`, `TcpLimits.SplitLoses`); comparisons ignore 32-bit wrap (`TcpLimits.AckSeen`); a window
  shrunk below what is in flight lets everything through (`TcpLimits.WindowKept`, `TcpLimits.ShrunkWindow`); a window that
  has closed with everything acknowledged never opens again (`TcpLimits.SendsAgainIff`); without a
  new connect or listen call, a block that timed out can be released iff an open call still waits on it
  (`TcpLimits.TimedOutReleasedIff`, `TcpLimits.UnansweredExample`, `TcpLimits.EstablishedExample`).
- A full transfer or event ring is not detected (`TransferRing.PushReadyIff`, `XhciRings.PostSeenIff`).
- With given ports connected, a waiting port can be served iff the waiting ports up to it are all connected, and some
  port is being addressed or is connected and not configured yet (`PortPhases.ServedIff`, `PortPhases.Starves`,
  `PortPhases.TwoPortsExample`).
- `FileDescriptor::Write` takes `min(len, ...)` where `len - total` is due, and jumps to the last of several new clusters
  (`WritePlans.PlanExact`, `WritePlans.OverrunExample`, `WritePlans.SkipExample`).
- `WaitFinish` sleeps for ever for a task whose code is already taken, for the caller itself, in a circle of waits, or
  if another task waits for the same one (`SchedulerRuns.GoGoodIff`, `SchedulerRuns.WaitTwiceExample`,
  `SchedulerRuns.StolenExample`, `SchedulerRuns.SelfForgotten`).
- A transparent window that becomes clear over something it had painted leaves the old pixels
  (`LayerManagement.LayerManager.Repaint`). A transparent layer is painted outside the area drawn too, so redrawing part
  of the screen is right iff the transparent layers drawn do no harm elsewhere (`Composition.KeptIff`,
  `LayerManagement.LayerManager.Move`, `Composition.TransparentBelowExample`).
- A mapping reaches every byte of its file iff the file is no larger than the space left (`MappedFiles.CoversAllIff`);
  a larger one is not mapped at all (`MappedFiles.TooLarge`).

Paths in the table are those of the repository.

## Model

| member | source | states |
|---|---|---|
| LinearAddresses.ValueRoundTrip | kernel/paging.hpp:13-61 | The bit fields of the address union and its 64-bit value determine each other. |
| LinearAddresses.PathNumber | kernel/paging.hpp:25-40 | The page number of the four table indices is the address divided by the page size, modulo 2^36. |
| LinearAddresses.NextEntryPath | kernel/paging.cpp:83-86 | Stepping to the next entry and clearing the lower parts is the first page of the next subtree. |
| PageTables.Framing | kernel/paging.hpp:63-89 | What a page map means depends on its table frames only: changes elsewhere leave frames, ownership and shape as they are. |
| PageTables.LeafInjective | kernel/paging.hpp:63-89 | In a well-formed page map no two pages share a frame. |
| PageTables.Graft | kernel/paging.cpp:45-57 | Replacing one subtree by a tree of frames of its own changes the translations under that entry and no others. |
| PageMapping.SetupCompose | kernel/paging.cpp:59-90 | Mapping one run of pages and then the adjoining run is mapping both; no page is mapped twice and no frame handed out twice. |
| PageMapping.SetupInner | kernel/paging.cpp:73-79 | Mapping in a subtree maps exactly those pages of the whole tree. |
| PageMapping.SetupLeaf | kernel/paging.cpp:63-72 | At level 1 one prepared entry maps exactly one page, keeping the frame and other bits of a page that was present. |
| Paging.Pager.NewPageMap | kernel/paging.cpp:164-171 | Takes the lowest free frame and zeroes it; fails iff there is none, changing nothing. |
| Paging.Pager.SetNewPageMapIfNotPresent | kernel/paging.cpp:45-57 | A present entry is left alone; otherwise it points at a zeroed frame that was free. |
| Paging.Pager.SetupPageMap | kernel/paging.cpp:59-90 | For any tree, address and count: exactly the first `num - remain` consecutive pages are mapped with the requested bits, present pages keep their frames, new pages are distinct zeroed frames that were free, every other translation and frame is unchanged, and pages remain only after the last index of the level. |
| PageReclaim.CleanComplete | kernel/paging.cpp:92-115 | For any start address a sweep frees only frames due, and all of them iff no visited subtable holds an owner before the index the sweep starts at. |
| PageReclaim.ZeroPartsSkipNothing | kernel/terminal.cpp:638 | A start address whose lower parts are zero, as in the only call, skips no owner. |
| PageReclaim.LeakExample | kernel/paging.cpp:99-100 | Two tables and a page for which a sweep from a lower part of 1 never frees the page. |
| PageReclaim.CleanedApart | kernel/paging.cpp:92-115 | What one visited entry gives back was given back by no earlier one. |
| Paging.Pager.CleanPageMap | kernel/paging.cpp:92-115 | Frees exactly the frames the sweep reaches, each once, clears the swept entries and changes no frame outside the tables. |
| PageSharing.CopyInner | kernel/paging.cpp:200-210 | Copying one subtree into a fresh table extends the copy by exactly that entry, or leaves it partial when memory runs out. |
| PageSharing.CopyLeaf | kernel/paging.cpp:190-198 | At level 1 the page is shared: same frame, read-only in the copy. |
| Paging.Pager.CopyPageMaps | kernel/paging.cpp:189-211 | The copy translates every page of the source to the same frame read-only, owns exactly its own new tables, and changes nothing else; it fails only when no frame is free. |
| PageSharing.ReplaceInner | kernel/paging.cpp:139-151 | Moving a page of a subtree to another frame moves it in the whole tree and nothing else. |
| Paging.Pager.SetPageContent | kernel/paging.cpp:139-151 | Follows the addresses of the entries and rewrites one entry of the last table; in a page map that moves the page at the address, and no other, to the new frame and makes it writable, keeps the tables, and changes the owned frames by that one frame. |
| PageOwnership.FrameKind | kernel/paging.cpp:92-115 | Every frame of a tree is a table or the frame of some page. |
| PageOwnership.OwnedKind | kernel/paging.cpp:105-110 | An owned frame that is no table is the frame of a page mapped writable. |
| PageOwnership.SetupOwns | kernel/paging.cpp:59-90 | After mapping pages writable the tree owns what it owned, the frames it took, and the shared pages the mapping ran over, and nothing else. |
| PageOwnership.SetupStaysApart | kernel/paging.cpp:59-90 | Mapping keeps the owned frames apart from the rest of the system iff it runs over no shared page. |
| AppSpace.FirstMapping | kernel/paging.cpp:117-125 | The first mapping covering an address; none iff no mapping covers it. |
| AppSpace.RunSplit | kernel/syscall.cpp:339-370 | A run that has not stopped goes on from the memory it has come to. |
| AppSpace.DemandPagesGives | kernel/syscall.cpp:339-349 | DemandPages answers the start of the pages it adds: every user address in them is reached, and reads zero before it is written. |
| AppSpace.StaysUsable | kernel/syscall.cpp:339-349 | Those pages stay usable through the rest of every run. |
| AppSpace.RangesApart | kernel/syscall.cpp:339-349 | The ranges of successive calls do not overlap, and with no call between them they adjoin. |
| AppSpace.UsableMeans | kernel/syscall.cpp:339-349 | Reads and writes there are neither refused nor fatal, and a write is read back. |
| AppSpace.ReadsBack | kernel/syscall.cpp:339-349 | What is written there is read back. |
| AppSpace.ImageKeptIff | kernel/syscall.cpp:363 | A step keeps what the image shows iff it stores no new word into a page still shared. |
| AppSpace.CarefulIff | kernel/syscall.cpp:363 | What the image shows is the same all through a run iff every step of the run is such. |
| AppSpace.SharedStoreExample | kernel/syscall.cpp:351-370 | A MapFile whose pointer lies in a page not written yet: a later read yields the size, and the image is changed. |
| AppSpace.NullWriteStrays | kernel/paging.cpp:218 | A write through a null pointer, by the application or by MapFile, strays. |
| AppSpace.KernelHalfRefused | kernel/paging.cpp:220-232 | A read of the kernel half, and any access to what is not mapped there, is refused and changes nothing. |
| AppSpace.StraysIff | kernel/syscall.cpp:364-368 | As long as no mapped file can reach the kernel half, a step strays iff it writes to what is mapped there. |
| AppInvariant.WalkIsLeaf | kernel/paging.hpp:63-89 | In the trees the kernel keeps, the leaf entry alone decides the access: user mode reaches every page and may write exactly those mapped writable. |
| AppInvariant.WriteKeepsApp | kernel/paging.cpp:153-160 | A write to a page mapped writable changes that page of the application only and no frame of the rest of the system. |
| AppInvariant.SetupView | kernel/paging.cpp:178-182 | After mapping, new pages read as zero and all others as before. |
| AppInvariant.CopyKeepsApp | kernel/paging.cpp:153-160 | Copy on write changes no page as the application sees it, makes that page writable and leaves every other entry, the cached image and all other frames as they were. |
| AppInvariant.CopyStartsApp | kernel/terminal.cpp:171-176 | The read-only copy of an image shows the image and owns exactly its own tables. |
| ImageSharing.StoreShared | kernel/paging.cpp:36 | A store into a page mapped read-only goes into the frame of the image: application and image show it at that page, and nothing else changes. |
| ImageSharing.SameImage | kernel/paging.hpp:63-89 | What an image shows depends on the frames of the rest of the system only. |
| ImageSharing.KeptIff | kernel/paging.cpp:36 | All frames of the rest of the system are as they were iff the image shows what it showed. |
| KernelMap.KernelWalk | kernel/paging.cpp:23-34 | In the kernel half exactly the first 64 GiB are mapped, onto themselves, writable, and not for user mode. |
| KernelMap.KernelWay | kernel/paging.cpp:139-151 | For such an address SetPageContent rewrites an entry in the first frame of the 2 MiB page. |
| KernelMap.FutileCopy | kernel/paging.cpp:153-160 | A copy of such a page leaves the page map and the kernel map as they are and takes a frame that belongs to nobody. |
| KernelMap.OverrunStep | kernel/paging.cpp:153-160 | Further copies redirect the same entry to ever higher frames. |
| AppMemory.App.FindFileMapping | kernel/paging.cpp:117-125 | Finds the first mapping that covers an address, or none. |
| AppMemory.App.SetupPageMaps | kernel/paging.cpp:178-182 | Pages mapped for an application appear as zero pages and nothing else changes. |
| AppMemory.App.CopyOnePage | kernel/paging.cpp:153-160 | For any address: takes the lowest free frame, fills it with the page as the processor finds it, and points the entry SetPageContent finds at it; changes nothing iff no frame is free. |
| AppMemory.App.CopyShared | kernel/paging.cpp:153-160 | For a page shared with the image that makes the page private and writable without changing any page the application sees. |
| AppMemory.App.PreparePageCache | kernel/paging.cpp:127-137 | Exactly the faulting page appears, with the bytes of the file at its offset. |
| AppMemory.App.HandlePageFault | kernel/paging.cpp:213-233 | A fault that is served makes the page hold what the flat memory says; an access outside every range, and any but a user-mode write to what is mapped in the kernel half, is refused and changes nothing; for such a write it copies a page and reports success. |
| AppMemory.App.StoreWord | kernel/paging.cpp:36 | A store into a page that is present goes through whether the page is writable or not; the frames of the rest of the system are kept iff the page is private or holds the word already. |
| AppMemory.App.UserWrite | kernel/paging.cpp:213-222 | A user-mode write that does not stray, with the fault it may raise, is the write of the flat memory and never reaches the image; it is refused for non-canonical and unmapped addresses. |
| AppMemory.App.UserRead | kernel/paging.cpp:213-233 | A user-mode read, with the fault it may raise, returns the value of the flat memory; it is refused in the kernel half. |
| AppMemory.App.KernelStore | kernel/syscall.cpp:363 | A word stored through a pointer of the application, with the fault of the kernel it may raise, is the store of the flat memory. |
| AppMemory.App.Perform | kernel/syscall.cpp:339-370 | One access or system call (demand pages, map file with its store of the size, or a bad descriptor), at any address, is one step of the flat memory; it keeps all frames of the rest of the system iff it changes no page still shared. A step that strays is told apart before it is done. |
| AppMemory.App.CallApp | kernel/paging.cpp:213-233 | Every run of accesses and system calls yields exactly the outcomes of the flat memory, up to the point where memory runs out, and comes to the memory the flat memory comes to. |
| AppMemory.App.SetupPML4 | kernel/terminal.cpp:117-128 | A fresh top-level table with the kernel half of the current one and an empty user half. |
| AppMemory.App.FreePML4 | kernel/terminal.cpp:130-136 | The kernel map is current again and the top-level table is given back. |
| AppMemory.App.LoadApp | kernel/terminal.cpp:171-176 | For a cached image: the application starts with a read-only view of the image; on failure nothing of the rest of the system has changed, and frames leak iff any was free. |
| AppMemory.App.MakeArgVector | kernel/terminal.cpp:20-61 | Fills the argument page and nothing else, or reports that the arguments do not fit. |
| AppMemory.App.StartApp | kernel/terminal.cpp:592-627 | The application starts on its image, its argument page and a zeroed stack. |
| AppMemory.App.WriteKernelHalf | kernel/paging.cpp:213-219 | A user-mode write to what is mapped of the kernel half: every frame that was free is taken and belongs to nobody, and one entry of the first frame of the 2 MiB page, unless that is a table in use, points at the highest of them; nothing else changes. |
| AppMemory.App.StoreKernelHalf | kernel/syscall.cpp:363 | A system call stores into whatever frame lies at such an address; the frames of the rest of the system are kept iff it is none of theirs or holds the word already. |
| AppMemory.App.WriteAndFinish | kernel/paging.cpp:92-115 | After such a user-mode write the sweep gives back what the application held, each frame once, and exactly the frames that were free stay lost. |
| AppMemory.App.WindUp | kernel/terminal.cpp:635-641 | What follows the last step of a run, by what that step was. |
| AppMemory.App.RunApp | kernel/terminal.cpp:631-641 | From a loaded application on: the outcomes of the flat memory, how the run ended, and what it leaves. |
| AppMemory.App.ExecuteFile | kernel/terminal.cpp:592-642 | A whole run, for any accesses, yields the outcomes of the flat memory. As a rule it leaves the allocated frames as they were, frees each frame the application held once, changes nothing but pages of its image, which then shows what the flat memory says, and leaves all frames as they were iff that is what it showed before; ends in the kernel half are told apart, with what they leave; with the exact condition under which a failed start leaks. |
| AppMemory.ConservedIff | kernel/terminal.cpp:592-642 | Frames in use and memory of the rest of the system are conserved iff the image shows what it showed and, if the run ended with a user-mode write to the kernel half, no frame was free. |
| AppMemory.StartStraysIff | kernel/syscall.cpp:351-370 | In a run from the start of an application, of at most 2^31 steps with files below 4 GiB, a step strays iff it writes to what is mapped of the kernel half. |
| AppMemory.NullWriteExample | kernel/paging.cpp:213-219 | An application that writes through a null pointer: all frames that were free are lost. |
| AppMemory.SweepIsOwned | kernel/terminal.cpp:638-641 | The sweep at the end reaches everything the application owns. |
| AppMemory.ArgsMapped | kernel/terminal.cpp:602 | The argument page is writable once it is set up. |
| AppMemory.ShowsStart | kernel/terminal.cpp:592-627 | Image, argument page and stack together are the memory an application starts with. |
| AppMemory.SharesStart | kernel/terminal.cpp:592-627 | At the start exactly the pages of the image are shared. |
| AppMemory.ImageLeft | kernel/terminal.cpp:635-641 | After the sweep all frames are as they were iff the image left is the one found. |
| BitWords.BitReverseIsRev | apps/gviewer/stb_image.h:3983-3998 | Swapping ever larger groups and shifting reverses the low bits of any value, for up to 16 bits. |
| BitWords.OrIsSum | apps/gviewer/stb_image.h:4077 | Or-ing in bits above the buffered ones adds them. |
| HuffmanPrefix.UniqueMatch | apps/gviewer/stb_image.h:4000-4045 | No canonical code is a prefix of another: at most one symbol starts a stream. |
| HuffmanPrefix.ShortMatch | apps/gviewer/stb_image.h:4098-4100 | Left-aligned comparison below the limit of a length means a code of at most that length starts the stream. |
| HuffmanPrefix.AcceptedIffKraft | apps/gviewer/stb_image.h:4011-4025 | The length vectors accepted are exactly those that satisfy the Kraft inequality. |
| HuffmanTables.SlotInjective | apps/gviewer/stb_image.h:4027-4043 | Every symbol in use has a slot of its own. |
| HuffmanTables.SlotBound | apps/gviewer/stb_image.h:4027-4043 | A slot is below the number of symbols in use, hence inside the tables. |
| HuffmanTables.SlowFinds | apps/gviewer/stb_image.h:4102-4107 | At the length the comparison finds, the slot computed from the code holds the symbol and its length, so the assertion of the slow path holds. |
| HuffmanTables.NoCode | apps/gviewer/stb_image.h:4098-4101 | When the comparison runs through all lengths, no code starts the stream. |
| HuffmanBuild.ZHuffman.CountSizes | apps/gviewer/stb_image.h:4006-4010 | The number of symbols of each length. |
| HuffmanBuild.ZHuffman.SizesFit | apps/gviewer/stb_image.h:4011-4013 | Accepts iff no length has more symbols than codes. |
| HuffmanBuild.ZHuffman.AssignCodes | apps/gviewer/stb_image.h:4014-4026 | Assigns first codes, first slots and left-aligned limits, and rejects iff the codes of some length do not fit. |
| HuffmanBuild.ZHuffman.EnterFast | apps/gviewer/stb_image.h:4034-4040 | Fills exactly the fast entries whose 9 bits start with the code. |
| HuffmanBuild.ZHuffman.Build | apps/gviewer/stb_image.h:4000-4045 | Accepts a vector iff it satisfies the Kraft inequality, and then the tables decode it. |
| Inflate.ZBuf.Get8 | apps/gviewer/stb_image.h:4067-4071 | The next byte of the stream, zero behind its end. |
| Inflate.ZBuf.FillBits | apps/gviewer/stb_image.h:4073-4080 | Buffers more than 24 bits without changing the stream. |
| Inflate.ZBuf.Receive | apps/gviewer/stb_image.h:4082-4090 | The next bits as a number, consumed exactly. |
| Inflate.FastDecides | apps/gviewer/stb_image.h:4110-4122 | The fast entry of a stream is zero iff no code of up to 9 bits starts it, and otherwise names that code's symbol and length. |
| Inflate.ZBuf.DecodeSlow | apps/gviewer/stb_image.h:4092-4108 | Without a short code the slow path returns the symbol whose code starts the stream and consumes exactly its length; -1 iff there is none. |
| Inflate.ZBuf.Decode | apps/gviewer/stb_image.h:4110-4122 | For every accepted vector and every buffer: the symbol whose canonical code starts the stream, exactly its bits consumed, -1 iff no code does. |
| Inflate.EncodedStarts | apps/gviewer/stb_image.h:4000-4045 | A symbol's code in front of a stream starts it, and dropping it leaves the stream. |
| Inflate.DecodesEncoded | apps/gviewer/stb_image.h:4110-4122 | Decoding the codes of any sequence of symbols gives that sequence back and leaves what follows. |
| TimeVals.AddUsec | kernel/network/benri.h:21-29 | Adds microseconds with carry; the result is normalized. |
| TimeVals.Sub | kernel/network/tcp.c:315 | The difference of two times, normalized. |
| TimeVals.After | kernel/network/tcp.c:323 | Comparison of normalized times is comparison of microseconds. |
| TcpState.EmittedAll | kernel/network/tcp.c:851 | The timer treats every queued entry by itself and keeps their order. |
| TcpSafety.NextInv | kernel/network/tcp.c:632-701 | After an acknowledgment the sequence variables are in order for the next state of the diagram: FIN_WAIT_1 and CLOSING leave something unacknowledged, FIN_WAIT_2 and TIME_WAIT nothing. |
| TcpSafety.ArrivesInv | kernel/network/tcp.c:394-767 | Every segment, in every state, keeps the order of the sequence variables and of the queue between them. |
| TcpSafety.CloseInv | kernel/network/tcp.c:1275-1336 | Closing keeps that order. |
| TcpSafety.SendInv | kernel/network/tcp.c:1143-1218 | Sending keeps that order. |
| TcpSafety.StepInv | kernel/network/tcp.c:394-767 | Every event keeps the invariant of the send side. |
| TcpSafety.RunInv | kernel/network/tcp.c:394-854 | Every run without 32-bit wrap keeps it. |
| TcpSafety.ConnectKeeps | kernel/network/tcp.c:975-1054 | A control block can be reused for a connection iff no entry of an earlier one is left in the queue that does not start at the new number. |
| TcpSafety.CleanupTiles | kernel/network/tcp.c:294-305 | Dropping acknowledged entries leaves exactly the unacknowledged octets iff the acknowledgment falls on a segment boundary. |
| TcpSafety.EntryTruthful | kernel/network/tcp.c:270-292 | A queued segment carries the octets of the connection at its own number. |
| TcpSafety.StepFaithful | kernel/network/tcp.c:394-767 | An event keeps the queue equal to what is sent and not acknowledged iff it is neither an acknowledgment inside a segment nor a simultaneous open. |
| TcpSafety.RunFaithful | kernel/network/tcp.c:394-854 | In runs without such events nothing unacknowledged is ever dropped. |
| TcpLimits.ResentAtMostFive | kernel/network/tcp.c:307-330 | No queued segment is sent again more than five times, for every sequence of timer instants. |
| TcpLimits.FiveReached | kernel/network/tcp.c:307-330 | Five times is reached, from any start. |
| TcpLimits.RunLimited | kernel/network/tcp.c:307-330 | In every run, whatever the events and times, each queued segment has been sent again at most five times. |
| TcpLimits.ResendsOctets | kernel/network/tcp.c:307-330 | What the timer sends again are octets of the connection at their own numbers. |
| TcpLimits.Quiet | kernel/network/tcp.c:670-688 | In FIN_WAIT_2 and TIME_WAIT the queue is empty and everything is acknowledged. |
| TcpLimits.SplitLoses | kernel/network/tcp.c:294-305 | An acknowledgment inside a segment drops the rest of it: no queued entry starts at or before the first octet the peer lacks. |
| TcpLimits.AckSeen | kernel/network/tcp.c:652 | An acknowledgment of outstanding octets is taken in iff their numbers do not wrap. |
| TcpLimits.PushSends | kernel/network/tcp.c:1184-1201 | Sending appends exactly as many octets of the data, in order, as the window has room for. |
| TcpLimits.WindowKept | kernel/network/tcp.c:1184-1201 | Sending stays within the window iff the connection was within it before; when it blocks the window is exactly full. |
| TcpLimits.ShrunkWindow | kernel/network/tcp.c:1186-1190 | With a window shrunk below what is in flight a further octet goes out. |
| TcpLimits.AcceptedIff | kernel/network/tcp.c:524-553 | A segment is acceptable iff one of its numbers is awaited and it does not stand out on both sides of the window; without octets iff its number is awaited, or next while the window is closed. |
| TcpLimits.SendsAgainIff | kernel/network/tcp.c:652-663 | A connection with everything acknowledged can ever send again, in any run without a new opening, iff its window is open. |
| TcpLimits.ReleasedIffWoken | kernel/network/tcp.c:915-925 | Without a new connect or listen a closed block is released in a run iff an open call that waits on it gets its turn. |
| TcpLimits.TimedOutReleasedIff | kernel/network/tcp.c:315-320 | Without a new connect or listen call, a block whose connection timed out can still be released iff an open call waits on it. |
| TcpLimits.ListenReleases | kernel/network/tcp.c:1088-1107 | With new calls it can be: listening asks for no state, and closing then releases the block. |
| TcpLimits.UnansweredExample | kernel/network/tcp.c:1036-1050 | A SYN without an answer times out, and the waiting call releases the block. |
| TcpLimits.EstablishedExample | kernel/network/tcp.c:315-320 | An established connection that times out: its block is released in no run without a new connect or listen call. |
| TcpWire.StepOut | kernel/network/tcp.c:380-391 | Every event keeps this: each octet numbered so far has gone out under its own number, each queued segment has gone out with its number, flags and data, and what has come in has been acknowledged. |
| TcpWire.RunOut | kernel/network/tcp.c:380-391 | So does every run. |
| TcpWire.Answered | kernel/network/tcp.c:708-737 | Whatever comes in of an acceptable segment, text or FIN, is acknowledged by the last segment put out. |
| TcpWire.PushWire | kernel/network/tcp.c:1184-1201 | tcp_send puts out exactly the data it takes: segments one behind the other from the next number on, each as large as it can be. |
| TcpWire.TickWire | kernel/network/tcp.c:307-330 | The timer puts out every due segment once, in the order of their numbers and without overlap, with the octets of the connection at its number and the latest acknowledgment, and nothing else. |
| TcpWire.FirstResend | kernel/network/tcp.c:320-329 | A queued segment goes out again at the first timer more than 0.2 seconds after it was sent, the same as before. |
| TcpWire.Refused | kernel/network/tcp.c:554-667 | Whatever lies out of the window, acknowledges nothing or acknowledges what was never sent changes nothing but the wire, on which the state of the connection is answered. |
| TcpWire.NewestWindow | kernel/network/tcp.c:658-663 | The window comes from the newest segment: an older one that arrives later leaves it as it is. |
| TcpWire.ResetReaches | kernel/network/tcp.c:401-414 | A segment for a block without a connection is answered by one reset; the peer takes it, if it has sent its SYN or is in step, iff its window is closed or does not wrap. |
| TcpConversation.Handshake | kernel/network/tcp.c:415-507 | A connecting block and a listening one become established with each other by three segments, acknowledged and with full windows, iff the window of the listening side does not wrap. |
| TcpConversation.BothReturn | kernel/network/tcp.c:909-925 | Two open calls, one passive and one connecting, both return once the three segments have gone through. |
| TcpConversation.SlicesHeard | kernel/network/tcp.c:708-725 | Data segments one behind the other are each taken where the receiver stands, and each is acknowledged. |
| TcpConversation.Transfer | kernel/network/tcp.c:1184-1201 | What tcp_send takes arrives at a peer in step that has room for it; the last acknowledgment that comes back empties the queue of the sender, and both are in step again. |
| TcpConversation.Goodbye | kernel/network/tcp.c:1285-1317 | One side closes, then the other: both blocks are released, the first by the first timer more than 30 seconds after its last segment. |
| TcpConversation.BothClose | kernel/network/tcp.c:746-753 | When both sides close at the same time both go through CLOSING to TIME_WAIT. |
| Tcp.Pcb.constructor | kernel/network/tcp.c:208-236 | A new block, like a released one, holds nothing. |
| Tcp.Pcb.RetransmitQueueCleanup | kernel/network/tcp.c:294-305 | Drops the entries at the head that start below the acknowledged number, and no others. |
| Tcp.Pcb.RetransmitQueueEmit | kernel/network/tcp.c:307-330 | One entry: closes after 12 seconds, sends again and doubles the time-out when it is due, does nothing otherwise. |
| Tcp.Pcb.Output | kernel/network/tcp.c:380-391 | Sends one segment and queues it iff it takes up sequence space. |
| Tcp.Pcb.CheckSequence | kernel/network/tcp.c:524-560 | The acceptance test of section 3.3 of RFC 793. |
| Tcp.Pcb.CheckAck | kernel/network/tcp.c:632-701 | The fifth step of segment processing is the acknowledgment part of the state diagram. |
| Tcp.Pcb.ProcessText | kernel/network/tcp.c:708-725 | The seventh step takes text in the three receiving states. |
| Tcp.Pcb.CheckFin | kernel/network/tcp.c:730-765 | The eighth step; the branch at 746-748 is never reached. |
| Tcp.Pcb.SegmentArrives | kernel/network/tcp.c:394-767 | The handler does what the state diagram says, in every state. |
| Tcp.Delivers | kernel/network/tcp.c:632-766 | Steps five, seven and eight together are one arrow of the state diagram. |
| Tcp.Pcb.Send | kernel/network/tcp.c:1143-1218 | The loop sends what the specification says, up to where it blocks or the network refuses a segment. |
| Tcp.Pcb.Close | kernel/network/tcp.c:1275-1336 | Closing follows the state diagram, and fails exactly in the other states. |
| Tcp.Pcb.Connect | kernel/network/tcp.c:975-1054 | The SYN goes out and is numbered; a refused SYN releases the block. |
| Tcp.Pcb.PassiveOpen | kernel/network/tcp.c:871-890 | Listens, and an open call waits for the state to change. |
| Tcp.Pcb.WakeOpen | kernel/network/tcp.c:909-925 | A waiting open call that gets its turn: done when established, waits on in SYN_RECEIVED, otherwise closes and releases the block. |
| Tcp.Pcb.Receive | kernel/network/tcp.c:1220-1273 | In a receiving state hands out the smaller of what is buffered and the size asked for, and opens the window by exactly that; nothing in the other states. |
| Tcp.Pcb.Timer | kernel/network/tcp.c:830-854 | Releases an expired TIME_WAIT block, otherwise looks at every queued entry once. |
| Tcp.Pcb.Drive | kernel/network/tcp.c:394-854 | A whole run of the handlers keeps the send invariant and, without split acknowledgments and simultaneous opens, drops nothing; all that is numbered has gone out. |
| RingPositions.Ahead | kernel/usb/xhci/ring.cpp:39-54 | Up to a lap further on a ring: which slot, and which cycle state. |
| RingPositions.SlotsDiffer | kernel/usb/xhci/ring.cpp:39-54 | Less than a lap apart, positions use different slots. |
| TransferRing.LinkIsLink | kernel/usb/xhci/trb.hpp:156-188 | The link the producer writes points at the start of the ring, for every base that is a multiple of 16 below 2^64. |
| TransferRing.ReadyIff | kernel/usb/xhci/ring.cpp:30-37 | At every moment, even within a push, the consumer sees a slot as its own iff a completely written one is outstanding. |
| TransferRing.StepInv | kernel/usb/xhci/ring.cpp:30-54 | Every single write of the producer and every step of the consumer keeps the ring consistent. |
| TransferRing.RunInv | kernel/usb/xhci/ring.cpp:30-54 | For any ring size of at least 2 and any interleaving in which pushes wait for room, a consumer that follows links to the address in them never leaves the ring, and what it has taken is a prefix of what was pushed. |
| TransferRing.PushIsWrites | kernel/usb/xhci/ring.cpp:39-54 | A push is its four word writes and, before the last slot, those of the link. |
| TransferRing.PushReadyIff | kernel/usb/xhci/ring.cpp:39-54 | After a push the consumer has something to read iff there was room; without room it stops. |
| TransferRing.OutstandingFits | kernel/usb/xhci/ring.cpp:39-54 | There is room while at least three slots are not taken by outstanding TRBs. |
| TransferRing.OutstandingTight | kernel/usb/xhci/ring.cpp:39-54 | With one TRB more there may be no room. |
| TransferRing.TakesAll | kernel/usb/xhci/ring.cpp:39-54 | With an idle producer the consumer takes everything that is outstanding, in order. |
| XhciRings.Ring.Initialize | kernel/usb/xhci/ring.cpp:12-28 | A new ring is empty for both sides. |
| XhciRings.Ring.CopyToLast | kernel/usb/xhci/ring.cpp:30-37 | Writes one slot, cycle bit last, and no other. |
| XhciRings.Ring.Push | kernel/usb/xhci/ring.cpp:39-54 | Writes the TRB, and the link and the new cycle state when the end is reached; returns the slot. |
| XhciRings.FrontIsOldest | kernel/usb/xhci/ring.hpp:59-65 | There is a front iff an event is outstanding, and it is the oldest one. |
| XhciRings.PostInv | kernel/usb/xhci/ring.cpp:56-93 | An event written to a ring with room keeps the ring consistent. |
| XhciRings.PostSeenIff | kernel/usb/xhci/ring.cpp:56-93 | After a post the software sees an event iff the ring was not full. |
| XhciRings.EventRing.Initialize | kernel/usb/xhci/ring.cpp:56-93 | A new event ring is empty. |
| XhciRings.EventRing.HasFront | kernel/usb/xhci/ring.hpp:59-61 | True iff an event is outstanding. |
| XhciRings.EventRing.Front | kernel/usb/xhci/ring.hpp:63-65 | The oldest outstanding event. |
| XhciRings.EventRing.Pop | kernel/usb/xhci/ring.cpp:101-114 | Consumes exactly the front. |
| XhciRings.EventRing.ProcessEvents | kernel/usb/xhci/xhci.cpp:618-626 | Handles every outstanding event once, oldest first. |
| PortPhases.FirstWaiting | kernel/usb/xhci/xhci.cpp:278-286 | The lowest waiting port. |
| PortPhases.StepExclusive | kernel/usb/xhci/xhci.cpp:113-305 | After every event exactly the addressing port is being reset, enabled or addressed, or no port is. |
| PortPhases.StepArrows | kernel/usb/xhci/xhci.cpp:25-62 | Every event moves every port along at most one arrow of the phase diagram. |
| PortPhases.ArrowsTaken | kernel/usb/xhci/xhci.cpp:113-305 | Which events move which port along each arrow of the phase diagram, and which move none: an exact condition for each arrow, over all events. |
| PortPhases.RunExclusive | kernel/usb/xhci/xhci.cpp:113-305 | In every run no port's phase ever decreases. |
| PortPhases.HandOver | kernel/usb/xhci/xhci.cpp:262-289 | The port being addressed can get its address, and the lowest waiting port, if connected, is reset then. |
| PortPhases.Starves | kernel/usb/xhci/xhci.cpp:277-286 | An unplugged waiting port keeps itself and every waiting port behind it waiting for ever. |
| PortPhases.IdleWaits | kernel/usb/xhci/xhci.cpp:113-136 | With no port being addressed, and none left to configure among those ever connected, waiting ports wait for ever. |
| PortPhases.ServedIff | kernel/usb/xhci/xhci.cpp:113-305 | On a controller with any number of ports, with given ports connected, some run serves a waiting port iff the waiting ports up to it are all connected, and some port is being addressed or is connected and not configured yet; and exactly then some run configures it. |
| PortPhases.Completes | kernel/usb/xhci/xhci.cpp:113-305 | A port under way, or connected and not configured with nobody being addressed, is configured by some run of successful events. |
| PortPhases.TwoPortsExample | kernel/usb/xhci/xhci.cpp:262-289 | Two ports: a device unplugged while the other one gets its address, and plugged in again, waits for ever. |
| PortPhases.PortConfiguration.ResetPort | kernel/usb/xhci/xhci.cpp:113-136 | Waits while another port is being addressed, otherwise starts the reset, or refuses a port in another phase. |
| PortPhases.PortConfiguration.ConfigurePort | kernel/usb/xhci/xhci.cpp:467-471 | Resets a port that is not connected yet, and keeps one port at a time. |
| PortPhases.PortConfiguration.OnPortStatusChange | kernel/usb/xhci/xhci.cpp:220-233 | The handler of port status changes keeps one port at a time. |
| PortPhases.PortConfiguration.OnEnableSlotDone | kernel/usb/xhci/xhci.cpp:255-261 | The completion of a slot keeps one port at a time. |
| PortPhases.PortConfiguration.OnAddressDeviceDone | kernel/usb/xhci/xhci.cpp:262-289 | The completion of an address hands over to the next port, one at a time. |
| PortPhases.PortConfiguration.OnTransfer | kernel/usb/xhci/xhci.cpp:235-247 | A transfer that finishes initialization starts the endpoints' configuration. |
| PortPhases.PortConfiguration.OnConfigureEndpointDone | kernel/usb/xhci/xhci.cpp:290-302 | The completed configuration of the endpoints configures the port. |
| ClusterChains.ChainDistinct | kernel/fat.cpp:139-142 | A chain that ends has no cycle, so the walk to its tail ends. |
| ClusterChains.FreeAre | kernel/fat.cpp:144-154 | The clusters chosen are free, ascending and distinct. |
| ClusterChains.FreeLowest | kernel/fat.cpp:144-154 | Every lower free cluster is taken first. |
| ClusterChains.LinkChain | kernel/fat.cpp:144-156 | Linking new clusters behind a path makes a chain of both. |
| ClusterChains.OtherChain | kernel/fat.cpp:138-157 | Every disjoint chain stays the chain it was. |
| ClusterChains.FreeOutside | kernel/fat.cpp:138-157 | Free clusters belong to no chain. |
| ClusterChains.Extends | kernel/fat.cpp:138-157 | A chain becomes itself and the lowest free clusters, ending in an end mark. |
| ClusterChains.FreeAfter | kernel/fat.cpp:138-157 | Linking uses up no more free clusters than it links. |
| Fat.Volume.NextCluster | kernel/fat.cpp:63-67 | The next cluster, with every end mark read as the same one. |
| Fat.Volume.ExtendCluster | kernel/fat.cpp:138-157 | From any member of a chain: the chain is extended by the n lowest free clusters, the new tail is returned, no other entry changes. |
| Fat.Volume.FirstFree | kernel/fat.cpp:228-234 | The lowest free cluster. |
| Fat.Volume.AllocateClusterChain | kernel/fat.cpp:226-238 | A new chain of the lowest free clusters, of at least one, returned by its head; no other entry changes. |
| FileBytes.FlatSlice | kernel/fat.cpp:250-252 | The bytes of a cluster are those of the file from the start of that cluster on. |
| FileBytes.FlatWrite | kernel/fat.cpp:296-299 | Copying bytes into one cluster copies them into the file at that place and nowhere else. |
| FatFiles.FileDescriptor.Read | kernel/fat.cpp:243-264 | Returns the next bytes of the file, up to its size, and advances exactly past them. |
| FatFiles.FileDescriptor.ReadParts | kernel/fat.cpp:243-264 | Any sequence of reads yields the bytes of one read of the total length. |
| FatFiles.FileDescriptor.Load | kernel/fat.cpp:309-322 | The bytes from an offset on, at most to the end of the file, whatever the cursors. |
| WritePlans.PlanExact | kernel/fat.cpp:266-307 | A write reads only its own buffer iff it stays in one cluster or ends with one; it then goes where the cursor says iff at most one new cluster is needed. |
| WritePlans.PlanShort | kernel/fat.cpp:266-307 | A write that crosses no cluster boundary does both and needs at most one new cluster. |
| WritePlans.SkipExample | kernel/fat.cpp:288-289 | A write of two clusters behind a full one starts in the second of the two new ones. |
| WritePlans.OverrunExample | kernel/fat.cpp:297 | A write of six bytes into clusters of four reads behind its buffer. |
| FatFiles.FileDescriptor.EnterWrite | kernel/fat.cpp:271-279 | The first write of a new file allocates its chain. |
| FatFiles.FileDescriptor.WriteLoop | kernel/fat.cpp:283-302 | Each byte is placed where the plan says, in a chain that only grows. |
| FatFiles.FileDescriptor.Write | kernel/fat.cpp:266-307 | With the exact condition for staying within the buffer and for the bytes to follow what was written before; other clusters, and so other files, are unchanged; a write that goes where it should leaves as many clusters as the bytes need, or as there were. |
| FatFiles.CountExact | kernel/fat.cpp:275-289 | So many clusters, no more and no fewer, for every such write. |
| FatFiles.FileDescriptor.WriteParts | kernel/fat.cpp:266-307 | Writes that cross no cluster boundary append their concatenation while the chain grows on demand. |
| FatFiles.OtherFile | kernel/fat.cpp:266-307 | A file on a chain of its own keeps its chain and its bytes. |
| FatFiles.RoundTrip | kernel/fat.cpp:243-307 | What is written in such parts is what another descriptor reads. |
| MappedFiles.MapOneMore | kernel/syscall.cpp:363-369 | Mapping one more file keeps the mappings stacked downward iff the file fits below the last one. |
| MappedFiles.RunStacked | kernel/syscall.cpp:351-370 | What a run of an application maps is stacked downward iff every file fits when it is mapped. |
| MappedFiles.StackedAligned | kernel/syscall.cpp:363-369 | All mappings start and end at pages, between the last address handed out and the stack. |
| MappedFiles.Below | kernel/syscall.cpp:363-369 | Mappings are pairwise disjoint. |
| MappedFiles.FoundUniquely | kernel/paging.cpp:117-125 | An address belongs to at most one mapping, and that one is found. |
| MappedFiles.PageInFile | kernel/paging.cpp:127-137 | A faulting page starts within the file. |
| MappedFiles.FaultPage | kernel/paging.cpp:127-137 | Each byte of the page is the byte of the file at its offset, or zero past the end. |
| MappedFiles.TooLarge | kernel/syscall.cpp:363-369 | A file larger than the space left gets an address but a mapping of no page. |
| MappedFiles.CoversAllIff | kernel/syscall.cpp:364-366 | A mapping reaches every byte of its file iff the file is no larger than the space below the last mapping. |
| TaskManagement.Erase | kernel/task.cpp:7-10 | Removes every occurrence and keeps the order of the rest. |
| Scheduling.HighestIs | kernel/task.cpp:233-241 | The level chosen is the highest with a task. |
| Scheduling.RotateInv | kernel/task.cpp:226-244 | A rotation goes on with the front of the highest level that has a task. |
| Scheduling.TickInv | kernel/task.cpp:100-107 | A tick keeps the run-queue invariant. |
| Scheduling.SleepInv | kernel/task.cpp:109-130 | Sleep keeps it: running tasks are in the queue of their level, once, and nowhere else. |
| Scheduling.MoveInv | kernel/task.cpp:205-212 | Moving another task to a level keeps it. |
| Scheduling.MoveSelfInv | kernel/task.cpp:214-223 | Moving the current task to a level keeps it. |
| Scheduling.WakeupInv | kernel/task.cpp:132-155 | Wakeup keeps it. |
| SchedulerRuns.FinishInv | kernel/task.cpp:168-185 | Ending a task keeps it. |
| SchedulerRuns.StepInv | kernel/task.cpp:86-244 | Every event keeps it. |
| SchedulerRuns.StepTask | kernel/task.cpp:86-224 | What every event does to every task there was before it: its level, whether it runs, its messages. |
| SchedulerRuns.CreatedTask | kernel/task.cpp:78-84 | A new task is the only one added, asleep at the default level with no message. |
| SchedulerRuns.LevelKept | kernel/task.cpp:132-155 | Over every run without an event that gives the task a level, its level stays what it was. |
| SchedulerRuns.TickPreempts | kernel/task.cpp:132-155 | After a task at a higher level than the current one was woken the next tick goes on at that level or higher. |
| SchedulerRuns.CurrentStays | kernel/task.cpp:86-185 | Waking, sending and creating leave the current task in its place. |
| SchedulerRuns.TurnAfter | kernel/task.cpp:226-244 | With nothing pending the k-th task of the current queue runs after k ticks. |
| SchedulerRuns.TurnNearer | kernel/task.cpp:86-244 | While no higher task wakes up, no event makes a waiting task fall back and a tick brings it one place nearer. |
| SchedulerRuns.TurnComes | kernel/task.cpp:86-244 | In every run in which no higher task wakes up and the task stays queued at its level, the k-th task of its queue becomes current by the k-th tick. |
| SchedulerRuns.GoGoodIff | kernel/task.cpp:168-200 | Every event keeps exit codes accounted for and every sleeping waiter due to be woken iff it is no wait for a task that has ended with its code taken, for one somebody else sleeps for, or for one that waits for the caller. |
| SchedulerRuns.CodeArrives | kernel/task.cpp:168-200 | The code of an ended task is kept or delivered, never both, unchanged, and its waiter is running until it is delivered. |
| SchedulerRuns.ExitWakes | kernel/task.cpp:168-185 | When a task ends, whoever sleeps waiting for it runs again, and the code is there. |
| SchedulerRuns.Gone | kernel/task.cpp:168-200 | The code of an ended task, once taken, never comes again in any run. |
| SchedulerRuns.CircleIff | kernel/task.cpp:187-200 | A wait closes a circle of waits iff the task waited for already waits, through others, for the caller. |
| SchedulerRuns.TakenForgotten | kernel/task.cpp:187-200 | A wait for a task whose code was taken is never woken. |
| SchedulerRuns.SelfForgotten | kernel/task.cpp:187-200 | Nor is a wait of a task for itself. |
| SchedulerRuns.WaitTwiceExample | kernel/task.cpp:187-200 | A task that waits for the same task twice sleeps for ever. |
| SchedulerRuns.StolenExample | kernel/task.cpp:187-200 | So does a woken task when another takes the code before its next turn of the loop. |
| SchedulerRuns.RunKeepsCodes | kernel/task.cpp:168-200 | In every such run codes are never changed and a delivered one stays delivered. |
| SchedulerRuns.ExactlyOnce | kernel/task.cpp:168-200 | In every such run the first turn of a wait for a task after its end, whichever of wait and end began earlier, returns its code, and no other turn returns one. |
| TaskManagement.TaskManager.constructor | kernel/task.cpp:86-93 | The main task runs, the idle task is on the lowest level, and the invariants hold. |
| TaskManagement.TaskManager.RotateCurrentRunQueue | kernel/task.cpp:226-244 | Rotates as specified and returns the task that was current. |
| TaskManagement.TaskManager.SwitchTask | kernel/task.cpp:100-107 | The next task is the front of the highest non-empty level. |
| TaskManagement.TaskManager.Sleep | kernel/task.cpp:109-130 | Sleeps as specified; fails iff there is no such task. |
| TaskManagement.TaskManager.ChangeLevelRunning | kernel/task.cpp:202-224 | Moves a running task as specified, the current one to the front of its new level. |
| TaskManagement.TaskManager.Wakeup | kernel/task.cpp:132-155 | Wakes as specified; fails iff there is no such task. |
| TaskManagement.TaskManager.SendMessage | kernel/task.cpp:157-164 | Appends the message and wakes the task; fails iff there is no such task. |
| TaskManagement.TaskManager.ReceiveMessage | kernel/task.cpp:62-68 | Takes the oldest message of the task, if any, and nothing else changes. |
| TaskManagement.TaskManager.Finish | kernel/task.cpp:168-185 | The current task is gone, its code is kept and its waiter runs. |
| TaskManagement.TaskManager.WaitFinish | kernel/task.cpp:187-200 | Takes the code if it is there, otherwise registers and sleeps. |
| Timers.TimerManager.constructor | kernel/timer.cpp:42-44 | A new manager holds the sentinel only. |
| Timers.TimerManager.AddTimer | kernel/timer.cpp:46 | Adds exactly that timer. |
| Timers.TimerManager.Top | kernel/timer.hpp:27-29 | A timer with the least timeout. |
| Timers.TimerManager.Tick | kernel/timer.cpp:48-73 | Ends, delivers exactly the ordinary timers that are due, in nondecreasing order of timeout, keeps the later ones, the sentinel and as many task timers. |
| Timers.TimerManager.Run | kernel/timer.cpp:46-73 | Over a run of AddTimer calls and ticks each ordinary timer, added before or in the run, is delivered exactly once at max(timeout, next tick) if the run gets there and is still queued otherwise, nothing else is delivered, and deliveries are in order. |
| Timers.RenewedStep | kernel/timer.cpp:56-61 | Renewing a task timer keeps the counts and leaves fewer timers due, so the loop ends. |
| Timers.SentStep | kernel/timer.cpp:63-68 | Delivering a timer keeps the counts and the order and leaves fewer timers due. |
| Pipes.UnreadAppend | kernel/terminal.cpp:904-926 | A message sent before the end of the stream adds exactly its bytes. |
| Pipes.Pipe.Read | kernel/terminal.cpp:869-902 | Returns the next bytes of the stream, at least one for a positive length; end of file only when everything written before the end has been read. |
| Pipes.Pipe.Write | kernel/terminal.cpp:904-918 | Appends exactly the bytes of the buffer, in pieces of at most 16. |
| Pipes.Pipe.FinishWrite | kernel/terminal.cpp:920-926 | Ends the stream and changes no byte. |
| Pipes.Pipe.ReadAll | kernel/terminal.cpp:869-902 | A finished stream read in any sequence of positive sizes gives its bytes once, in order, each read at least one until the end. |
| Geometry.Intersection | kernel/graphics.hpp:70-81 | A point is in the intersection iff it is in both rectangles, whatever the signs of the sizes. |
| FrameBuffers.FrameBuffer.Copy | kernel/frame_buffer.cpp:60-87 | Every pixel of the destination is the pixel of the source area that falls on it, if any, and otherwise unchanged. |
| LayerManagement.DrawTo | kernel/window.cpp:53-73 | Paints the layer: an opaque window replaces the pixels of the area, a transparent one paints its pixels that are not clear wherever they fall, outside the area too. |
| LayerManagement.DrawTransparent | kernel/window.cpp:63-72 | The pixel loops paint exactly the pixels that are not clear and fall on the buffer. |
| Composition.DrawnInside | kernel/layer.cpp:83-88 | Within the area a redraw shows the composite of all layers over an opaque bottom, whatever was there. |
| Composition.OutsidePainted | kernel/window.cpp:53-73 | Outside the area a drawing paints the transparent layers alone, in their order. |
| Composition.KeptIff | kernel/window.cpp:53-73 | A drawing keeps the picture outside its area iff the transparent layers drawn are clear there or the topmost that is not has the colour seen. |
| Composition.TopHarmless | kernel/layer.cpp:94-112 | Transparency on the topmost layer only does no harm. |
| Composition.MovedIff | kernel/layer.cpp:114-121 | The two redraws of a move show the new composite at a pixel iff the transparent layers do no harm there. |
| Composition.MovedPixel | kernel/layer.cpp:114-121 | A move goes well at every pixel when only the topmost layer is transparent. |
| Composition.RepaintedPixel | kernel/layer.cpp:90-112 | A repaint of an area shows the new composite at a pixel of it iff the layer or one above it shows there or what it showed before need not go, and elsewhere iff the transparent layers drawn do no harm. |
| Composition.ShownPixel | kernel/layer.cpp:132-155 | Drawing a layer put at another height shows the new composite within it, and elsewhere iff the transparent layers drawn do no harm. |
| Composition.ClosedPixel | kernel/layer.cpp:312-329 | Redrawing the place of a removed layer shows the new composite there, and elsewhere iff the transparent layers do no harm. |
| Composition.TransparentBelowExample | kernel/layer.cpp:94-112 | With transparency below the top layer, redrawing a rectangle elsewhere, as a move does, damages a pixel outside of it. |
| LayerManagement.LayerManager.DrawArea | kernel/layer.cpp:83-88 | Draws all layers within an area to the back buffer and copies that area to the screen. |
| LayerManagement.LayerManager.DrawLayer | kernel/layer.cpp:94-112 | Draws from a visible layer upward within its area and copies that to the screen. |
| LayerManagement.LayerManager.Refresh | kernel/main.cpp:214 | Drawing the whole screen shows the composite, whatever was there before. |
| LayerManagement.LayerManager.Move | kernel/layer.cpp:114-121 | If screen and back buffer show the composite, then after the move they show the new one iff the move goes well at every pixel, as it does when only the topmost layer is transparent. |
| LayerManagement.LayerManager.MoveRelative | kernel/layer.cpp:123-130 | The same for a relative move. |
| LayerManagement.LayerManager.Repaint | kernel/layer.cpp:90-112 | After a change of content inside an area and a draw of that area, or of the whole window, the screen shows the new composite iff no pixel of it became clear over a colour that must go and the transparent layers drawn do no harm elsewhere; outside that area of the window the screen stays as it is. |
| LayerManagement.PartIs | kernel/layer.cpp:98-106 | The part that is drawn is exactly the area named, as seen from the corner of the window, within the window. |
| LayerManagement.LayerManager.UpDown | kernel/layer.cpp:132-155 | For a height of at least 0 the layer ends up at that height of the others, or on top. |
| LayerManagement.LayerManager.Hide | kernel/layer.cpp:157-163 | The layer leaves the stack, the others keep their order. |
| LayerManagement.LayerManager.Raise | kernel/layer.cpp:230-251 | Showing a layer or putting it at another height and drawing it shows the new composite iff the transparent layers drawn do no harm outside it. |
| LayerManagement.LayerManager.Close | kernel/layer.cpp:312-329 | Closing a layer and drawing its place shows the new composite iff the transparent layers left do no harm outside it. |
| LayerManagement.LayerManager.FindLayerByPosition | kernel/layer.cpp:165-184 | The topmost layer at a position apart from the excluded one; none iff there is none. |
| FrameBitmap.TestBit | kernel/memory_manager.cpp:62-67 | The mask test reads exactly one bit. |
| FrameBitmap.OrBit | kernel/memory_manager.cpp:73-75 | Or-ing the mask sets exactly one bit. |
| FrameBitmap.AndNotBit | kernel/memory_manager.cpp:76-78 | And-ing the complement clears exactly one bit. |
| FrameBitmap.BitmapMemoryManager.GetBit | kernel/memory_manager.cpp:62-67 | True iff the frame is in use. |
| FrameBitmap.BitmapMemoryManager.SetBit | kernel/memory_manager.cpp:69-79 | Adds or removes exactly that frame. |
| FrameBitmap.BitmapMemoryManager.MarkAllocated | kernel/memory_manager.cpp:42-46 | Adds exactly the frames of the run. |
| FrameBitmap.BitmapMemoryManager.Free | kernel/memory_manager.cpp:35-40 | Removes exactly the frames of the run. |
| FrameBitmap.BitmapMemoryManager.Allocate | kernel/memory_manager.cpp:9-33 | The lowest run of n free frames in the range, disjoint from all in use; fails iff there is none. |
| FrameBitmap.ScanStep | kernel/memory_manager.cpp:106-126 | One descriptor extends the agreement of bitmap and memory map. |
| FrameBitmap.InitializeMemoryManager | kernel/memory_manager.cpp:101-127 | After the scan a frame below the end is free iff it lies in an available area, and no available area lies beyond. |
| InternetChecksum.Fold | kernel/network/benri.c:118-129 | Folding carries keeps the sum modulo 65535 and whether it is zero. |
| InternetChecksum.Cksum16 | kernel/network/benri.c:118-129 | The complement of the folded word sum, odd lengths included; the 32-bit sum does not overflow and the fold ends. |
| InternetChecksum.ChainIsConcatenation | kernel/network/udp.c:182-183 | Chaining through the sum of an even part is summing the concatenation. |
| InternetChecksum.Seal | kernel/network/tcp.c:361-368 | A checksum written by the sender verifies at the receiver, for every pseudo header and segment. |
| InternetChecksum.Verify | kernel/network/udp.c:177-187 | The receiver computes whether the segment verifies. |
| InternetChecksum.VerifiesIff | kernel/network/tcp.c:784-794 | A segment verifies iff its sum with the pseudo header is a positive multiple of 65535. |

## Left out

- AppMemory.App.LoadApp: models the start from a cached image only; the first load of an application, which reads an ELF file, is not part of this model.
- AppMemory.App.MakeArgVector: the content of the argument page and whether the arguments fit are parameters; splitting the command line is not modelled.
- AppMemory.App.PreparePageCache: the bytes of files are a function of descriptor and offset here; `MappedFiles.FaultPage` proves what that function is for a FAT file.
- AppMemory.App.CallApp: accesses are to aligned words.
- AppSpace.DemandPagesGives: assumes that the end of the range does not pass 2^64, as does the rest of a run in `AppSpace.StaysUsable`.
- AppMemory.App.WindUp: a run is not followed after a system call has stored into the kernel's half, after a user-mode write there whose 2 MiB page starts in one of the tables in use, or from a page that would fault in there, which takes more than 2^31 steps.
- AppMemory.App.KernelStore: MapFile is the one system call with such a store here; ReadFile, ReadEvent and the socket calls store through pointers of the application in the same way.
- Paging: CR3 is a field, and the TLB and the accessed and dirty bits are dropped; frames are handed out lowest first, as `FrameBitmap` proves of the allocator for single frames, and the allocator there is not linked to `Paging.Pager` in Dafny.
- BitWords.BitReverseIsRev: the masks of `stbi__bitreverse16` are modelled as the exchange of neighbouring groups of bits.
- The rest of stb_image, and what inflate does with the symbols it decodes.
- Inflate.ZBuf.FillBits: on a buffer that is handed in; the callback stream of stb_image is not modelled.
- TcpSafety.RunInv: assumes that sequence numbers do not wrap within an event, and that connect and listen start from an empty queue; `TcpLimits.AckSeen` and `TcpSafety.ConnectKeeps` give what happens otherwise.
- TCP: selection of control blocks, ports, backlog and sockets, the contents of the receive buffer, URG, and the condition variables on which user calls wait; a wait of send ends the call with `Blocked`, and open calls that wait are events of their own.
- TcpState.ArrivesListen: a listening block itself takes the connection, where socket mode allocates another block for it; one walk of the timer uses one clock value.
- TcpConversation.Transfer: one call of send with segments and acknowledgments that arrive in order and numbers that do not wrap; loss and reordering are in `TcpSafety` and `TcpWire`, which follow one block over every run.
- Tcp.Pcb.Send: which segment the network refuses, and the segment size, are parameters.
- UDP and TCP headers other than the checksum field, ARP, IP, Ethernet and drivers.
- TransferRing.RunInv: assumes that TRBs are pushed only while there is room, which the code does not check; `TransferRing.PushReadyIff` gives what happens otherwise. The ring lies at a multiple of 16 below 2^64, and memory writes of the producer are seen in order.
- XhciRings.EventRing.HardwarePost: the controller respects the dequeue pointer; segments other than the one the code sets up, doorbells and registers are not modelled.
- PortPhases: what registers and the device manager say when an event is handled are parameters of the event.
- Fat.Volume.ExtendCluster: requires enough free clusters, as the code has no error for a full volume.
- FatFiles.FileDescriptor.Read: requires the read offset to be within the file, where the subtraction of the code wraps otherwise; a file that another descriptor shrinks is not modelled.
- FatFiles.FileDescriptor.WriteParts: requires parts that cross no cluster boundary and a total below 4 GiB; `WritePlans.PlanExact` gives what happens to other writes.
- Directory entries, names and paths on the FAT volume.
- TaskManagement: contexts and stacks; tasks are values known by their ids, and `WaitFinish` returns to its caller where it would sleep.
- SchedulerRuns.RunKeepsCodes: waits are those `SchedulerRuns.MayWait` allows, and tasks put only themselves to sleep; `SchedulerRuns.GoGoodIff` gives what happens otherwise.
- LayerManagement: windows and layers are values held by the manager, so aliasing of windows is not modelled; 32-bit overflow of coordinates, areas with one negative size, drawing a hidden layer, `Window::Move`, and the pixel formats of frame buffers.
- LayerManagement.LayerManager.Move: requires an opaque bottom layer over the whole screen, as the desktop has.
- LayerManagement.LayerManager.UpDown: negative heights hide the layer, which is `LayerManagement.LayerManager.Hide`.
- FrameBitmap.InitializeMemoryManager: requires a page-aligned memory map in ascending order without overlap, below the 128 GiB the bitmap describes; the heap and `Stat` are not modelled.
- Timers.TimerManager.Tick: the order among timers with the same timeout is arbitrary, and a message to a task that has ended is still counted as delivered.
- Pipes.Pipe.Read: returns `Waiting` where the task would sleep, and goes on from the same state when it is called again.
- Boot loader, ACPI, PCI, interrupts, fonts, drawing, mouse, console, the terminal's text commands and all applications.
