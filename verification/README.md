# A verified model of WIE

WIE runs x86-64 Windows programs by interpreting their code and answering their WinAPI calls in the
host. This project models its parts with the hardest invariants in Dafny and proves what they are
relied on for.

- **Process heap** (`heap_spec`, `heap_answers`, `heap_words`, `heap_format`, `heap_space`, `guest_heap`,
  `guest_heap_accel`, `heap_handlers`). One abstract allocator, and three implementations of it: host
  stacks, linked lists threaded through guest memory with a header before every block, and the helpers that
  run in the guest on the same control block. Guest memory is a map of 8-byte words.
- **Interpreter** (`alu`, `exec_arith`, `string_blocks`, `string_runs`, `string_fills`, `string_faults`,
  `string_ops`, `string_scan`). The flag formulas of ADD, ADC, SUB, SBB and CMP down to the bit
  expressions; the block, page and element paths of REP MOVS and REP STOS, faults included; repeated SCAS
  and CMPS; and the protocol that steps an instruction until RIP leaves it.
- **Unwinding and exception tables** (`unwind`, `unwind_handler`, `unwind_calls`, `unwind_codes`,
  `function_tables`, `stack_walk`, `walk_ends`, `leb128`, `lsda`, `lsda_lists`,
  `lsda_types`, `lsda_formats`). The unwinder on real bytes against a machine that calls, runs prologues and returns; the
  lookup in function tables; the walk of both to a target frame; the search for a landing pad in
  language-specific data.
- **Loading** (`command_line`, `pe_image`, `image_bytes`, `relocation`, `relocation_table`). The
  command-line printer against the C tokenizer that reads the line; sections copied into the image;
  relocation blocks applied to it.
- **Host stops and threads** (`fake_api`, `host_stops`, `stub_slots`, `threads`, `thread_counts`). The packed
  address format and the import table; the stop bitmap; the lock and park protocol over any number of
  threads.
- `words`, `memory`: fixed-width arithmetic and byte memory.

Code that changes state is modelled by classes and by methods with the loops of the source, each
proved against a function; the theorems are about those functions and about whole runs.

What turned out not to hold as one would expect, each with its exact condition in the table:

- A block split from the large list leaves no room for a header: `HeapSpec.AllocKeepsInv`. Two calls
  lead to one: `HeapSpec.SplitIsReached`.
- Freeing null succeeds on the linked-list heap and fails on the plain one: `GuestHeapModel.ReplayBoth`.
- An empty request gets null from the in-guest helper and a block from the host handler. The helper
  ignores the zeroing flag and its comment says that the host does so too, but the handler clears the
  block: `GuestHeapAccel.HelperVersusHandler`, with a run in `GuestHeapAccel.ZeroFlagIgnored`.
- The header is zeroed so that a second free is noticed, but a free in the guest leaves the block in the
  host's books, which are asked first. A second free is then accepted and ruins the heap: `GuestHeapModel.GuestHeap.FreeCoherent`. Every class-sized block that the host allocated can be
  treated so: `GuestHeapAccel.HostBlockFreedTwice`.
- ADC folds the carry into the addend, so OF and AF are wrong for one addend each:
  `ExecArith.AdcFormulasExactly`.
- A forward REP MOVS or REP STOS that faults inside a chunk of 4096 bytes does not fault: one element is
  stored and the program goes on after the instruction with RCX not zero: `StringRuns.MissedExactly`, with
  an instance in `StringRuns.FaultForgotten`.
- An argument that needs quotes and ends in a backslash does not survive the command line:
  `CommandLine.RoundTripExactly`.
- A relocation whose eight or four bytes reach into the zero-filled tail of a section takes them from
  whatever the file holds there: `Relocation.SectionSiteIsRebased`. A 32-bit relocation is dropped when the delta
  does not fit: `Relocation.HighlowAdds`.
- SET_FPREG does not recover RSP: `UnwindCalls.UnwindNeedsRsp`.
- SAVE_NONVOL without a frame register is read from where it was stored only if the first pass over the
  codes finds nothing to add: `UnwindCalls.FramelessBase`, on the prologue `UnwindCalls.QuietPrologue`, and
  a register that is lost in `UnwindCalls.StoredRegisterLost`. The operand of a store at an offset below
  2 KB reads as a push.
- Chained unwind data pops a return address for every link: `UnwindCalls.ChainedPopsTooMuch`.
- A negative eight-byte signed value in exception tables is read as minus one:
  `LsdaLists.Sdata8Exactly`.
- Once the process is dying every worker leaves (`Threads.DyingWorkerLeaves`), but the primary can stay for
  ever by parking on a critical section whose owner has left, which is charged to no limit:
  `Threads.DyingPrimaryStays`. Nothing else keeps it: `Threads.DyingPrimaryLeaves`.

## Model

| member | source | states |
|---|---|---|
| HeapSpec.AllocKeepsInv | crates/wie-winapi/src/guest_heap.rs:119-155 | After an allocation blocks and their headers are again disjoint inside the carved region, lists hold exactly the free blocks of their class, and everything is accounted for, if and only if the request did not split a large block |
| HeapSpec.SplitIsReached | crates/wie-winapi/src/guest_heap.rs:135-153 | From an empty heap, one large allocation and its free make a sound heap on which a smaller large request splits and breaks the invariant |
| HeapSpec.AllocResult | crates/wie-winapi/src/guest_heap.rs:119-155 | The result is null with nothing changed, or a block that was not live before, is live now, has the rounded size and is at least as long as asked |
| HeapAnswers.AllocAnswers | crates/wie-winapi/src/guest_heap.rs:119-155 | A request that can be rounded gets null if and only if no free block fits it and the next 16-aligned payload address plus the rounded size is past the end of the region; a fitting free block comes first, the smallest one for a large request; otherwise the payload is at that address |
| HeapAnswers.AllocRefuses | crates/wie-winapi/src/guest_heap.rs:119-126 | An empty request, and one that rounding takes past 2^64, gets null |
| HeapAnswers.SplitLeaves | crates/wie-winapi/src/guest_heap.rs:135-153 | A reused large block is split exactly when at least 64 KiB would be left; what is left starts where the block handed out ends, and both have the stated sizes |
| HeapAnswers.ClassSizesAre | crates/wie-winapi/src/guest_heap.rs:10-20 | The 24 class sizes: 16, then 32 and 48 doubled in turn, up to 64 KiB |
| HeapAnswers.FreeAnswers | crates/wie-winapi/src/guest_heap.rs:210-226 | A free is accepted exactly for a live block, and a class-sized block is the first to be handed out again |
| HeapSpec.FreeKeepsInv | crates/wie-winapi/src/guest_heap.rs:210-226 | A free keeps the whole invariant, whatever address it is given |
| HeapSpec.RoundUpFits | crates/wie-winapi/src/guest_heap.rs:346-366 | The rounded size is a multiple of 16 that holds the request, the least class that does when one does, and zero exactly when the addition overflows |
| GuestHeapModel.SizeClassIndex | crates/wie-winapi/src/guest_heap.rs:358-366 | The scan finds the index of the least class that holds the size |
| GuestHeapModel.RoundUpSize | crates/wie-winapi/src/guest_heap.rs:346-356 | Rounding by scanning classes equals the abstract rounding, overflow included |
| HeapWords.AllocRepr | crates/wie-winapi/src/guest_heap.rs:160-206 | The words an allocation writes make guest memory represent the heap after it: every list an acyclic null-terminated chain, every live header its block's size, the cursor in the control block |
| HeapFormat.ControlIs | crates/wie-winapi/src/guest_heap.rs:80-99 | In memory that represents a heap the control block holds the cursor and then the 24 list heads, word by word |
| HeapFormat.LinkIs | crates/wie-winapi/src/guest_heap.rs:253-274 | There the first word of a free block is the address of the next one or zero |
| HeapFormat.HeaderIs | crates/wie-winapi/src/guest_heap.rs:230-274 | There the word in front of a block is its size while it is live and zero otherwise |
| HeapWords.FreeRepr | crates/wie-winapi/src/guest_heap.rs:230-274 | The words a free writes make guest memory represent the heap after it |
| HeapWords.ClientWriteRepr | crates/wie-winapi/src/guest_heap.rs:160-274 | Writes of the client inside live payloads disturb no header, no link and no list head |
| HeapWords.RunKeepsGood | crates/wie-winapi/src/guest_heap.rs:160-274 | Invariant and representation hold after every run of allocations, frees and client writes |
| HeapWords.LivePayloadIsStable | crates/wie-winapi/src/guest_heap.rs:160-274 | Over any run in which a block stays live and the client does not write a word of its payload, that word keeps its value |
| HeapSpace.CarvedIsPeak | crates/wie-winapi/src/guest_heap.rs:128-134 | The number of blocks of a class ever carved grows exactly with the peak number live at once |
| HeapSpace.SpaceBound | crates/wie-winapi/src/guest_heap.rs:306-325 | From an empty heap, the blocks of a class carved in any run are as many as were ever live at once |
| HeapSpace.PushKeepsChainIffNew | crates/wie-winapi/src/guest_heap.rs:253-274 | An unchecked push leaves a null-terminated list if and only if the block was not on it |
| HeapSpace.StalePushLoops | crates/wie-winapi/src/guest_heap.rs:253-274 | After a push of a block that waits on its list, memory represents no heap at all |
| GuestHeapModel.GuestHeap.BumpAlloc | crates/wie-winapi/src/guest_heap.rs:306-325 | Carving from the cursor with header room, alignment and overflow checks is the abstract carve |
| GuestHeapModel.GuestHeap.FindLargeFit | crates/wie-winapi/src/guest_heap.rs:327-343 | The scan finds the smallest large block that is big enough, or that there is none |
| GuestHeapModel.GuestHeap.AllocPlain | crates/wie-winapi/src/guest_heap.rs:119-155 | The stack-based allocation is the abstract one, address and state |
| GuestHeapModel.GuestHeap.FreePlain | crates/wie-winapi/src/guest_heap.rs:210-226 | The stack-based free is the abstract one; refused unless live |
| GuestHeapModel.GuestHeap.AllocCoherent | crates/wie-winapi/src/guest_heap.rs:160-206 | The allocation through guest memory is the abstract one and writes exactly the words stated; the host's books and memory stay in step unless a block was split |
| GuestHeapModel.GuestHeap.FreeCoherent | crates/wie-winapi/src/guest_heap.rs:230-251 | The free through guest memory is the abstract one, with its exact writes, and keeps the heap's validity, if and only if the host does not take for live a block that a guest freed; in that case it is accepted and no heap explains what it leaves |
| GuestHeapModel.GuestHeap.FreeKnownBlock | crates/wie-winapi/src/guest_heap.rs:253-274 | A push without a liveness check: link, head and header written, nothing else |
| GuestHeapModel.ReplayBoth | crates/wie-winapi/src/guest_heap.rs:119-274 | For every trace, double frees included, linked-list and stack heap give the same addresses and results, except that freeing null differs |
| GuestHeapAccel.HandleHeapAlloc | crates/wie-winapi/src/kernel32.rs:1413-1443 | The host handler allocates at least one byte and zeroes on request |
| GuestHeapAccel.HandleHeapFree | crates/wie-winapi/src/kernel32.rs:1450-1472 | The host handler's free is the abstract free, but for a block in the host's books that a guest freed: that free succeeds and ruins the heap |
| HeapHandlers.HandlerIs | crates/wie-winapi/src/kernel32.rs:1413-1443 | What the handler leaves in memory word by word: the block is cleared exactly when bit 3 of the flags is set, an empty request counts as one byte, a null handle is refused |
| GuestHeapAccel.HeapAllocHelper | crates/wie-runtime/src/guest_heap_accel.rs:117-269 | For the process heap and a class-sized request the in-guest code makes exactly the transition of the host's coherent allocation, whatever the flags; everything else is the handler's |
| GuestHeapAccel.HeapFreeHelper | crates/wie-runtime/src/guest_heap_accel.rs:280-384 | The in-guest free of a live class-sized block makes exactly the host's transition on memory and leaves the host's books alone |
| HeapHandlers.HelperIs | crates/wie-runtime/src/guest_heap_accel.rs:117-160 | Which requests are the helper's own, and that it clears nothing and answers an empty one with null |
| GuestHeapAccel.MixedRun | crates/wie-runtime/src/guest_heap_accel.rs:117-384 | However calls with any flags are split between guest helper and host handler, a client that frees only live blocks gets the stated answers and memory goes through the stated run |
| GuestHeapAccel.CallsKeepGood | crates/wie-winapi/src/kernel32.rs:1413-1443 | Invariant and representation hold after every such run, cleared blocks and empty requests included |
| GuestHeapAccel.MixedPayloadIsStable | crates/wie-winapi/src/kernel32.rs:1413-1443 | Over every such run a live block keeps its contents until it is freed or written: clearing a new block never reaches it |
| GuestHeapAccel.ServerDoesNotMatter | crates/wie-runtime/src/guest_heap_accel.rs:117-384 | If no call asks the host for a cleared or an empty block, answers and memory are those of the abstract allocator, whoever serves which call |
| GuestHeapAccel.HostBlockFreedTwice | crates/wie-runtime/src/guest_heap_accel.rs:280-384 | A class-sized block from the host's handler, freed twice in the guest: both frees succeed, and no heap explains what is left |
| GuestHeapAccel.HelperVersusHandler | crates/wie-runtime/src/guest_heap_accel.rs:117-160 | On every request helper and handler leave the same heap, memory and RAX if and only if the request is not the helper's own, or nothing can be had, or it is not empty and either asks for no zeroes or would be given a payload of zeroes |
| GuestHeapAccel.ZeroFlagIgnored | crates/wie-runtime/src/guest_heap_accel.rs:117-160 | For every class-sized request: allocate, write, free, and allocate with the zero flag; the helper hands the written word out again, the handler a zero |
| Alu.AddOverflowBit | crates/wie-cpu/src/regs.rs:341-359 | The exclusive-or formula for OF is signed overflow of the sum |
| Alu.SubOverflowBit | crates/wie-cpu/src/regs.rs:361-377 | The exclusive-or formula for OF is signed overflow of the difference |
| ExecArith.FlagReadsBack | crates/wie-cpu/src/regs.rs:262-320 | Setting or clearing one flag bit of RFLAGS changes that flag and no other |
| ExecArith.RegFile.SetAddFlags | crates/wie-cpu/src/regs.rs:341-359 | Given the truncated sum, RFLAGS then reads back as the six flags the architecture prescribes for the addition, with DF kept |
| ExecArith.RegFile.SetSubFlags | crates/wie-cpu/src/regs.rs:361-377 | Given the truncated difference, the same for the subtraction |
| ExecArith.AddFlagsExact | crates/wie-cpu/src/regs.rs:341-359 | For ADD the bit formulas are the architecture's flags of the exact sum |
| ExecArith.SubFlagsExact | crates/wie-cpu/src/regs.rs:361-377 | For SUB and CMP the bit formulas are the architecture's flags of the exact difference |
| ExecArith.SbbFlagsExact | crates/wie-cpu/src/exec.rs:681-697 | With borrow in, CF and OF recomputed at full width are the architecture's |
| ExecArith.AdcFlagsExact | crates/wie-cpu/src/exec.rs:671-679 | For ADC the bit formulas, fed the addend with the carry folded in and CF from the wide sum, give the flags the model calls emulated |
| ExecArith.AdcFormulasExactly | crates/wie-cpu/src/exec.rs:671-679 | For ADC the bit formulas of the code against the exact three-term sum: CF, ZF, SF and PF are right; OF is unless the carry is set and the addend is the largest signed value, AF unless the carry is set and it ends in nibble 15 |
| ExecArith.EmulationIsExact | crates/wie-cpu/src/exec.rs:671-679 | What the interpreter computes is architectural, except ADC's OF exactly when carry is set and the addend is the largest signed value, and AF exactly when it ends in nibble 15 |
| ExecArith.AdcOverflowMissed | crates/wie-cpu/src/exec.rs:671-679 | A signed byte addition that overflows with the carry, and an OF that stays clear |
| ExecArith.RegFile.ExecArith | crates/wie-cpu/src/exec.rs:644-708 | One instruction: the result and all flags, at every width |
| ExecArith.CmpDecides | crates/wie-cpu/src/exec.rs:510-530 | After CMP the conditional jumps decide unsigned and signed order of the operands, both directions, all widths |
| ExecArith.CmpShows | crates/wie-cpu/src/exec.rs:510-530 | After CMP the other six jumps: signed overflow of the difference, its sign as wrapped, and its parity |
| ExecArith.ParityIs | crates/wie-cpu/src/regs.rs:341-377 | Parity is that of the number of ones among the low eight bits |
| ExecArith.AddChainExact | crates/wie-cpu/src/exec.rs:666-680 | ADD then ADC over any number of limbs gives the exact sum with CF as its carry |
| ExecArith.SubChainExact | crates/wie-cpu/src/exec.rs:681-697 | SUB then SBB over any number of limbs gives the exact difference with CF as its borrow |
| ExecArith.SubChainUnsigned | crates/wie-cpu/src/exec.rs:681-697 | After such a chain CF is set exactly when the first number is below the second |
| ExecArith.SubChainSigned | crates/wie-cpu/src/exec.rs:681-697 | After such a chain SF differs from OF exactly when the first number is below the second, signed |
| StringBlocks.MovsIsBlock | crates/wie-cpu/src/exec.rs:1724-1760 | On ranges that do not overlap, copying element by element in either direction is one block copy |
| StringBlocks.StosIsBlock | crates/wie-cpu/src/exec.rs:1612-1640 | Filling element by element in either direction is one block fill |
| StringRuns.RanResumes | crates/wie-cpu/src/exec.rs:1803-1815 | Moving or storing some elements and then the rest is doing them all, overlapping ranges and faults included |
| StringRuns.OverlapTest | crates/wie-cpu/src/exec.rs:1838-1845 | The overlap test is exact on ranges that do not wrap |
| StringRuns.ChunkMisses | crates/wie-cpu/src/exec.rs:1775-1792 | A chunk that cannot be accessed as a whole: if its first element can, that one is stored and the instruction is left with it and the rest still to do; otherwise it is the fault of the architecture |
| StringRuns.MissedExactly | crates/wie-cpu/src/exec.rs:1656-1663 | What REP MOVS and REP STOS leave behind is the architecture's run, faults included, if and only if it goes backward, or no element faults, or the one that does is the first of a chunk of 4096 bytes, or the ranges of a copy overlap; otherwise the fault is lost at the start of that chunk |
| StringFaults.MissedInBytes | crates/wie-cpu/src/exec.rs:1656-1663 | Going forward, counted in bytes: the fault is lost exactly if it is not at a multiple of 4096 bytes from the start and the last batch of at most 2^20 elements is not an overlapping copy |
| StringRuns.FaultForgotten | crates/wie-cpu/src/exec.rs:1657-1662 | REP STOSB of two bytes or more where the first can be written and the second cannot: no fault, and RCX is what it was |
| StringRuns.BatchesResume | crates/wie-cpu/src/exec.rs:1597-1836 | Where the 2^20 limit cuts a run does not matter, whether it is done, faults or loses a fault |
| StringOps.HostFillPattern | crates/wie-cpu/src/exec.rs:1561-1584 | The host loop writes the element repeated over the whole span |
| StringOps.StringStos | crates/wie-cpu/src/exec.rs:1597-1685 | Whichever path runs, on memory mapped anyhow, one batch of at most 2^20 elements leaves what is stated; one STOS without a prefix stores the low bytes of RAX at RDI and nothing else; RIP stays exactly when the whole batch was done |
| StringOps.StringMovs | crates/wie-cpu/src/exec.rs:1708-1836 | The same for MOVS, both directions, all widths, overlapping ranges; one MOVS without a prefix copies the element |
| StringOps.RunRepStos | crates/wie-cpu/src/exec.rs:1493-1497 | Stepping REP STOS with any RCX on memory mapped anyhow: it ends where the run of all elements does; if nothing faults every byte of the range holds its byte of RAX, every other byte is as before, RCX is zero and RDI past the range, after the stated number of steps; RIP leaves with RCX not zero exactly when a fault is lost |
| StringOps.RunRepMovs | crates/wie-cpu/src/exec.rs:1493-1497 | The same for REP MOVS; every byte of the destination then holds the byte of the source, if no byte is in both |
| StringOps.StosStamps | crates/wie-cpu/src/exec.rs:1597-1685 | Byte by byte what a run of STOS leaves in memory, in either direction and where the pointer wraps |
| StringOps.MovsCopies | crates/wie-cpu/src/exec.rs:1708-1836 | The same for MOVS on ranges that share no byte |
| StringOps.StepsForIs | crates/wie-cpu/src/exec.rs:1493-1497 | The number of steps: one for every 2^20 elements or part of them, and one more |
| StringScan.ScannedFindsLeast | crates/wie-cpu/src/exec.rs:1914-2019 | Elements are compared in order up to the first one that satisfies the stop condition or is not mapped, or to the end; which of the three it was, the registers after it and the last comparison |
| StringScan.ScanFinds | crates/wie-cpu/src/exec.rs:1914-2019 | The same on memory, without the scanner: REPE passes over elements equal to the accumulator or to the element from RSI, REPNE over unequal ones, each read little-endian as many elements from the pointers as it comes in order, forward or backward, and the scan ends behind the first it does not pass over or in front of the first that is not mapped |
| StringScan.ScannedResumes | crates/wie-cpu/src/exec.rs:1928-1960 | Where the 2^20 limit cuts a scan does not matter |
| StringScan.ScanBatch | crates/wie-cpu/src/exec.rs:1914-2019 | One batch of at most 2^20 elements on any memory: RIP stays exactly when something was done and nothing stopped it; a load that fails is a fault with everything before it done |
| StringScan.RunRepScan | crates/wie-cpu/src/exec.rs:1493-1497 | Stepping a repeated SCAS or CMPS on any memory and with any RCX: ends where the scan of all elements ends, wherever the batch limit cut it, with RCX, index registers and the flags of the last comparison; it faults exactly when the first unmapped element comes before the first stopping one |
| Unwind.UnwindLevel | crates/wie-winapi/src/exception.rs:378-556 | The two loops over the codes compute the recursive meaning of the codes, every opcode and every failed read included |
| Unwind.VirtualUnwind | crates/wie-winapi/src/exception.rs:378-613 | Unwinding through chained entries is one level after the other |
| UnwindHandler.ReportsHandler | crates/wie-winapi/src/exception.rs:547-613 | On the bytes: for unwind data without a chain the first handler word, the data word and its address are reported if the flags in the first byte name an exception or termination handler, and no handler if they name none; the words are behind the codes, padded to four bytes |
| UnwindCodes.CodesAre | crates/wie-winapi/src/exception_helpers.rs:39-100 | The bytes of every unwind code: operation and register in the two halves of the second byte, operands little-endian |
| UnwindCodes.OtherCodes | crates/wie-winapi/src/exception.rs:535-545 | A machine frame gives up 24 or 32 bytes of stack, and an unknown operation does nothing |
| UnwindCodes.FrameOnBytes | crates/wie-winapi/src/exception.rs:378-455 | The number of codes, the frame register and the frame offset in the header bytes, and the frame base they give |
| UnwindCodes.SlotsOnBytes | crates/wie-winapi/src/exception.rs:390-411 | Every code is two bytes in memory, in order |
| Unwind.FollowFurther | crates/wie-winapi/src/exception.rs:556-585 | How many links one is ready to follow does not matter once the chain has ended |
| Unwind.HeaderRoundTrip | crates/wie-winapi/src/exception_helpers.rs:103-118 | The four header bytes read back as the header |
| Unwind.SlotsRoundTrip | crates/wie-winapi/src/exception_helpers.rs:103-118 | Encoded codes read back as the codes |
| UnwindCalls.CodesDecode | crates/wie-winapi/src/exception.rs:456-545 | Interpreting the stored codes of a prologue is reversing its instructions, last one first |
| UnwindCalls.EffectDecodes | crates/wie-winapi/src/exception.rs:456-535 | Wherever the code of an instruction stands, its effect is to reverse that instruction |
| UnwindCalls.UnwindIsEpilogue | crates/wie-winapi/src/exception.rs:378-613 | On the bytes the encoder produced, one unwind is the epilogue and a return, and it reports the handler the header announces |
| UnwindCalls.UnwindFrame | crates/wie-winapi/src/exception.rs:378-613 | Unwinding the innermost frame gives its caller's RIP, RSP and nonvolatile registers, XMM6 to XMM15 among them |
| UnwindCalls.UnwindingUndoesCalls | crates/wie-winapi/src/exception.rs:378-613 | Any number of unwinds gives the context of the call that entered the last frame unwound |
| UnwindCalls.UnwindingAnyRun | crates/wie-winapi/src/exception.rs:378-613 | After any run of calls, bodies that spare save slots and return addresses, and returns, unwinding every active frame restores RSP and the nonvolatile registers the run began with; prologues push, allocate in all three encodings, set a frame register, and store general and extended registers at their offsets from RSP, near and far, without a frame register if the first pass finds nothing to add |
| UnwindCalls.FollowIsEpilogues | crates/wie-winapi/src/exception.rs:556-585 | On the bytes of chained unwind data of any length, unwinding is an epilogue and a return for every piece, and reports the handler of the last |
| UnwindCalls.ChainedPopsTooMuch | crates/wie-winapi/src/exception.rs:547-585 | Unwinding through chained entries gives the caller's RSP if and only if there is no chain |
| UnwindCalls.ChainedReturnAddress | crates/wie-winapi/src/exception.rs:547-585 | With one link and no codes, RIP is taken from the word above the return address |
| UnwindCalls.UnwindNeedsRsp | crates/wie-winapi/src/exception.rs:490-492 | With or without a frame register, unwinding gives the caller's RSP if and only if RSP is where the prologue left it |
| UnwindCalls.EntryRspIsExact | crates/wie-winapi/src/exception.rs:412-449 | The first pass finds RSP at function entry when no code stores into the frame |
| UnwindCalls.FramelessBase | crates/wie-winapi/src/exception.rs:412-449 | Without a frame register, for every code list, stores are undone from RSP in the body, where they were made, if and only if no slot at which the first pass stops accounts for stack (or RSP is the last address) |
| UnwindCalls.QuietPrologue | crates/wie-winapi/src/exception.rs:412-449 | On the prologue, when no operand reads as ALLOC_LARGE: it has no push, no allocation, and no store whose operand reads as an opcode that accounts for stack |
| UnwindCalls.SaveWithoutFrameMisread | crates/wie-winapi/src/exception.rs:412-449 | By how much: after pushes and allocations, a last store at an offset below 2 KB is read from as much above its place as they moved RSP, and eight bytes more |
| UnwindCalls.LowSaveComesBack | crates/wie-winapi/src/exception.rs:412-515 | What such a register comes back as after the whole epilogue: the word that far above the one stored |
| UnwindCalls.StoredRegisterLost | crates/wie-winapi/src/exception.rs:412-515 | On one stack, RBX comes back as 0 although 7 was stored |
| StackWalk.UnwindFrameAt | crates/wie-winapi/src/seh.rs:800-840 | One step up: by the covering entry, whichever order the modules are tried in and through chained entries, or by popping when there is none |
| StackWalk.ForcedUnwind | crates/wie-winapi/src/seh.rs:311-376 | From the registers at the call: the walk of at most 64 frames to the first context that is the target, and the move to the target instruction; without a target a plain return |
| StackWalk.WalkReachesTarget | crates/wie-winapi/src/seh.rs:338-357 | With the functions' entries registered, walking to a target, by instruction or by frame, ends in the context of the first caller that is it |
| WalkEnds.WalkIs | crates/wie-winapi/src/seh.rs:338-357 | In any memory: the walk ends at the first frame with the target's RSP, or, but for the frame of the call, with its RIP, or below a frame with RIP zero, or after so many; it fails if a frame before that cannot be unwound |
| StackWalk.ForcedUnwindLands | crates/wie-winapi/src/seh.rs:311-376 | The thread goes on with RSP and the nonvolatile registers of that caller, at the target instruction or where the caller resumes |
| StackWalk.UnwindToFrame | crates/wie-winapi/src/seh.rs:311-376 | A forced unwind to the frame of any of the 64 innermost callers restores that caller's RIP, RSP and nonvolatile registers |
| FunctionTables.LookupFunctionEntry | crates/wie-winapi/src/exception.rs:189-238 | Trying the modules in any order, an entry is found if and only if some registered entry covers the address |
| FunctionTables.CoversIs | crates/wie-winapi/src/exception.rs:54-62 | An entry covers the addresses from its begin up to its end, relative to the image |
| FunctionTables.NullIsZeros | crates/wie-winapi/src/exception.rs:247-250 | The entry that is left out is the one of twelve zero bytes |
| FunctionTables.CoveringIsUnique | crates/wie-winapi/src/exception.rs:189-238 | At most one registered entry covers an address, so the answer does not depend on the order |
| FunctionTables.BinarySearch | crates/wie-winapi/src/exception.rs:207-212 | A hit has the key; a miss splits the table at the key |
| FunctionTables.ParsePdata | crates/wie-winapi/src/exception.rs:242-256 | Every whole entry of the section except the null ones, in order |
| FunctionTables.PdataRoundTrip | crates/wie-winapi/src/exception.rs:242-256 | A serialised table with null padding and trailing bytes parses back to the table |
| Leb128.ReadUleb | crates/wie-winapi/src/exception.rs:620-636 | The shifting loop computes the number its bytes stand for, and refuses a tenth byte |
| Leb128.ReadSleb | crates/wie-winapi/src/exception.rs:638-658 | The same with sign extension |
| Leb128.UlebRoundTrip | crates/wie-winapi/src/exception.rs:620-636 | Encoding and decoding are inverse for every number the byte limit admits, which is below 2^63 for nine bytes |
| Leb128.SlebRoundTrip | crates/wie-winapi/src/exception.rs:638-658 | Encoding and decoding are inverse for every signed number the byte limit admits, from -2^62 up to 2^62 for nine bytes |
| Leb128.UlebRefuses | crates/wie-winapi/src/exception.rs:620-636 | The encoding of any larger number is refused |
| Lsda.MatchAction | crates/wie-winapi/src/exception.rs:1019-1092 | The loop over at most 32 records is the recursive walk |
| Lsda.FindLandingPad | crates/wie-winapi/src/exception.rs:776-913 | The loop over the call sites is the recursive search, failed reads included |
| LsdaLists.FirstHandler | crates/wie-winapi/src/exception.rs:833-912 | The first site of a list whose chain selects a handler, and no earlier one does |
| LsdaLists.CoversReturnAddress | crates/wie-winapi/src/exception.rs:826-879 | A call site covers exactly the addresses of its range and the one just after it |
| LsdaLists.WalkIsSelect | crates/wie-winapi/src/exception.rs:1019-1092 | Walking records in memory, laid out anywhere and linked forwards or backwards, selects the first typed match of the chain, else its first catch-all |
| LsdaLists.ScanIsSearch | crates/wie-winapi/src/exception.rs:833-912 | Scanning serialised call sites, in every format the code accepts, is searching their list |
| LsdaLists.RawReads | crates/wie-winapi/src/exception.rs:679-713 | An encoded value reads back in every format, signed ones sign-extended |
| LsdaFormats.EncodedIs | crates/wie-winapi/src/exception.rs:660-713 | Every pointer encoding, by the bits of its byte: width, sign extension, variable length, and the ones that are refused |
| LsdaFormats.AppliedIs | crates/wie-winapi/src/exception.rs:715-757 | What an encoded pointer is relative to, and when it is read through; zero stays zero |
| LsdaFormats.FollowIs | crates/wie-winapi/src/exception.rs:1073-1090 | Where the link of an action record leads, in signed addresses |
| LsdaLists.Sdata8Exactly | crates/wie-winapi/src/exception.rs:702-707 | An eight-byte signed value reads back if and only if it is not negative, or minus one; every negative one reads as minus one |
| LsdaLists.TypeEntryResolves | crates/wie-winapi/src/exception.rs:1095-1123 | A type-table entry stored in any fixed format, relative to its place, the image or the function, resolves to what it was made from, through one indirection if it asks for one |
| LsdaLists.LandingPadOnBytes | crates/wie-winapi/src/exception.rs:776-913 | On the bytes of any tables, with or without a landing-pad base of their own and in every call-site format, the search answers exactly what a search of the lists answers |
| LsdaTypes.CatchIsFound | crates/wie-winapi/src/exception.rs:776-913 | On the bytes of any tables: the landing pad, its action and its filter are those of the first covering site with a pad whose chain has no action, or a record that catches: of a positive filter whose type entry holds the thrown type, else of a filter or entry that is zero; a negative filter never catches |
| LsdaTypes.JudgesAsStored | crates/wie-winapi/src/exception.rs:1046-1092 | Which records catch, from the stored type entries |
| CommandLine.QuoteWindowsArg | crates/wie-pe/src/lib.rs:108-123 | The loop produces the quoted form |
| CommandLine.QuotedExactly | crates/wie-pe/src/lib.rs:108-123 | An argument is put in quotes exactly if it is empty or holds a space, a tab or a quote |
| CommandLine.BuildWindowsCommandLine | crates/wie-pe/src/lib.rs:97-105 | The loop produces the arguments quoted and separated by spaces |
| CommandLine.NextToken | micro-exes/cli_args/parse.c:46-97 | One token, cut to the row, NUL-terminated, and the rest of the line |
| CommandLine.TokenizeAll | micro-exes/cli_args/parse.c:99-110 | The tokens of the line, at most 24 |
| CommandLine.TokensOfLine | crates/wie-pe/src/lib.rs:97-123 | Arguments none of which is ambiguous come back in order, cut to the number and length of the rows |
| CommandLine.RoundTripExactly | micro-exes/cli_args/parse.c:46-110 | The printed line reads back as the arguments if and only if there are at most 24, each of at most 95 bytes, free of NUL, and none that is empty or holds a space, tab or quote ends in a backslash |
| PeImage.BuildImage | crates/wie-pe/src/lib.rs:779-822 | The image filled in place is headers, zeros and every section's raw data; a section that does not fit fails |
| ImageBytes.BuildsExactly | crates/wie-pe/src/lib.rs:779-862 | It exists exactly when the headers and all raw data are in the file and fit the image |
| ImageBytes.ImageByte | crates/wie-pe/src/lib.rs:779-862 | Every byte of it is that of the last section loaded over it, else of the headers, else zero |
| ImageBytes.OffsetIs | crates/wie-pe/src/lib.rs:688-712 | The file offset of an address is taken from the first section whose virtual or raw range holds it |
| PeImage.CopySection | crates/wie-pe/src/lib.rs:824-862 | One section copied in place, or refused without a change |
| PeImage.ImageAgreesWithFile | crates/wie-pe/src/lib.rs:688-712 | Past the headers, the file offset of an address is where the image's byte came from if the address is in raw data; otherwise the image holds zero |
| Relocation.ApplyRelocations | crates/wie-winapi/src/dll_loader.rs:423-546 | The nested loops rewrite the image as the decoded fixups say, and fail exactly where the format does |
| RelocationTable.TableIsApplied | crates/wie-winapi/src/dll_loader.rs:423-546 | From the directory in the file: if its bytes are serialised blocks, exactly their fixups are applied, and the run succeeds |
| RelocationTable.TableRebases | crates/wie-winapi/src/dll_loader.rs:423-546 | So every site of the table in raw data that no other overlaps holds afterwards what it held plus the delta |
| RelocationTable.RelocationFails | crates/wie-winapi/src/dll_loader.rs:431-458 | Nothing is done for a delta of zero; without a directory, or with one that is not all in the file, it fails with the image as it was |
| RelocationTable.BlocksAre | crates/wie-winapi/src/dll_loader.rs:454-490 | How blocks follow each other: fewer than eight bytes or a size of zero end the table, a smaller size than eight is refused |
| RelocationTable.EntriesAre | crates/wie-winapi/src/dll_loader.rs:466-490 | The fixups of a block, from the bits of its entries, up to the first that is cut off or of a type other than padding, 32 bits and 64 bits |
| Relocation.TableRoundTrip | crates/wie-winapi/src/dll_loader.rs:460-489 | Serialised blocks decode to the fixups they stand for |
| Relocation.OtherBytesKeep | crates/wie-winapi/src/dll_loader.rs:491-534 | A byte no fixup applies to keeps its value |
| Relocation.RelocatingTwice | crates/wie-winapi/src/dll_loader.rs:423-546 | Applying relocations twice is applying them once, for every table, overlapping sites included |
| Relocation.SiteIsRebased | crates/wie-winapi/src/dll_loader.rs:491-534 | In any image and wherever it lies, a site that no other overlaps holds afterwards what it held plus the delta if and only if the file holds, at the offset the code reads, the same bytes |
| Relocation.SectionSiteIsRebased | crates/wie-winapi/src/dll_loader.rs:491-534 | For a site in one section past the headers of the loaded image that is: the file has enough bytes there, and those past the raw data of the section are zero |
| Relocation.RawSiteIsRebased | crates/wie-winapi/src/dll_loader.rs:491-534 | So it always does in raw data |
| Relocation.TailSiteIsRebased | crates/wie-winapi/src/dll_loader.rs:491-534 | In the zero-filled tail it does if and only if the file holds zeroes at the offset read |
| Relocation.HighlowAdds | crates/wie-winapi/src/dll_loader.rs:495-512 | Whatever the delta, a HIGHLOW site in raw data receives it modulo 2^32 if and only if it fits in 32 bits or is a multiple of 2^32 |
| FakeApi.FieldsDoNotOverlap | crates/wie-winapi/src/fake_va.rs:74-76 | Combining the fields bitwise, as an address is made, is adding them |
| FakeApi.DecodesWhatWasEncoded | crates/wie-winapi/src/fake_va.rs:74-168 | An encoded value decodes to itself, for an unresolved index exactly below 0x8000; the address is aligned and in the window |
| FakeApi.EncodesWhatWasDecoded | crates/wie-winapi/src/fake_va.rs:131-168 | Every address that decodes is the address of what it decodes to |
| FakeApi.SoftApiTable.Intern | crates/wie-runtime/src/hooks.rs:56-80 | One entry per import whatever its case; refused exactly when new and the table is full |
| FakeApi.FoldIgnoresCase | crates/wie-runtime/src/hooks.rs:56-80 | Two names are taken for the same exactly when they differ at most in the case of ASCII letters |
| FakeApi.ResolveImport | crates/wie-runtime/src/hooks.rs:138-152 | The address an import is given, by its dense id or its place in the table |
| FakeApi.ResolveFakeApiAt | crates/wie-runtime/src/hooks.rs:154-188 | The answer for a stop address is the one thing that has this address: the import interned there, the import with that dense id, or the COM method, which no other address stands for in turn; there is none exactly when the address stands for nothing |
| FakeApi.ResolvesExactly | crates/wie-runtime/src/hooks.rs:154-188 | The decoded answer is some target if and only if the address stands for that target |
| FakeApi.AddressResolves | crates/wie-runtime/src/hooks.rs:154-188 | An import's address resolves back to the import, ignoring case |
| FakeApi.AddressesAreDistinct | crates/wie-runtime/src/hooks.rs:138-188 | Two imports have the same address exactly when they are the same import |
| FakeApi.AddressesStay | crates/wie-runtime/src/hooks.rs:56-80 | Later imports do not change an address given earlier |
| FakeApi.ImportsResolve | crates/wie-runtime/src/hooks.rs:138-188 | Over any sequence of imports every address answered resolves to its import in the final table, and two are equal exactly for the same import |
| HostStops.HookWindow.PlantGuestStubs | crates/wie-runtime/src/guest_stubs.rs:710-796 | It fails exactly when some write of it does, and then stops there; otherwise the bitmap is clear at exactly the bytes of the code planted in the window, and memory holds the writes stated |
| HostStops.GroundTakesAll | crates/wie-runtime/src/guest_stubs.rs:710-796 | On the memory the runtime maps for stubs and helpers every write succeeds |
| HostStops.PlantedCodeHolds | crates/wie-runtime/src/guest_stubs.rs:710-796 | Afterwards every import that got a stub holds it: its body, or a jump to where its body is; slots and bodies do not overwrite each other |
| StubSlots.EntryGets | crates/wie-runtime/src/guest_stubs.rs:710-796 | Which import gets what: its body where it fits a slot of sixteen bytes, else a jump of twelve and the body in the helper region, rounded up to sixteen bytes; and nothing when there is no room |
| StubSlots.FailsExactly | crates/wie-runtime/src/guest_stubs.rs:710-796 | Planting fails exactly when a write of some entry finds no memory |
| StubSlots.SlotStops | crates/wie-runtime/src/guest_stubs.rs:735-790 | An address runs in the guest exactly if the import of its slot got a stub that reaches to it |
| HostStops.HookWindow.ClearStopBits | crates/wie-runtime/src/guest_rewire.rs:66-90 | Clearing bits for a range adds exactly that range, within the window |
| HostStops.HookWindow.Rewire | crates/wie-runtime/src/guest_rewire.rs:20-64 | Rewiring finds the import by name, puts a jump to the target at its address and adds exactly its twelve bytes to what runs in the guest |
| HostStops.JumpLeads | crates/wie-runtime/src/guest_rewire.rs:20-64 | The twelve bytes of a jump lead to its target |
| HostStops.HookWindow.ShouldHostStop | crates/wie-cpu/src/exec.rs:156-175 | An address stops in the host exactly when it is in the window and no planted code covers it |
| HostStops.CodeStaysInSlot | crates/wie-runtime/src/guest_stubs.rs:735-790 | Planted code stays in the 16-byte slot of its import and in the window |
| HostStops.HelpersAreDisjoint | crates/wie-runtime/src/guest_stubs.rs:748-776 | Bodies in the helper region do not overlap |
| HostStops.HelpersAfterCursor | crates/wie-runtime/src/guest_stubs.rs:748-776 | Bodies in the helper region lie inside it |
| HostStops.OtherSlotsStop | crates/wie-runtime/src/guest_stubs.rs:710-796 | An import neither planted nor rewired stops at every byte of its slot |
| Threads.StepKeepsGood | crates/wie-runtime/src/mt_runtime.rs:172-407 | Every step of every thread keeps: the lock is held by exactly the thread in a locked region, whoever dispatches is the active thread, a worker that left has called finish_tid |
| Threads.EveryRunIsSafe | crates/wie-runtime/src/session.rs:1254-1800 | In every interleaving, through exception continuations, guest callbacks and sessions run again after a return, handlers run under the lock as the active thread, and nobody runs guest code or parks holding it |
| ThreadCounts.RunAddsUp | crates/wie-runtime/src/mt_runtime.rs:99-482 | Over every run: as many threads are there or pending as were and were created in handlers; the process is dying exactly if a step ended it; finish_tid was called for exactly those threads whose steps call it |
| ThreadCounts.RunTallies | crates/wie-runtime/src/session.rs:1254-1920 | Over every run of the session the counters of charged and of noisy calls grow by the number of such calls |
| ThreadCounts.RunIdles | crates/wie-runtime/src/session.rs:1340-1412 | The count of idle quanta grows by their number until a stop |
| ThreadCounts.LimitsAre | crates/wie-runtime/src/session.rs:1244-1258 | The limits those counters run into: the calls asked for; fifty times as many noisy ones, and no fewer than fifty thousand above them; forty quanta |
| ThreadCounts.StepShows | crates/wie-runtime/src/mt_runtime.rs:172-482 | What every step does to threads, flags and the active thread, effect by effect |
| ThreadCounts.StepEnters | crates/wie-runtime/src/session.rs:1254-1920 | Where a step may lead: to guest code only from the activation, to a handler only behind the exit checks, to sleep only on a target that was found or after a poll in a living process |
| Threads.DyingWorkerLeaves | crates/wie-runtime/src/mt_runtime.rs:213-482 | In a dying process a worker takes at most twelve more steps of its own, whatever the others do |
| Threads.DyingPrimaryStays | crates/wie-runtime/src/session.rs:1254-1412 | A guest that enters a critical section whose owner has left keeps the primary of a dying process for ever: for every number there is a run of that many turns, each parking once, after which it is at the head of its loop and no counter is nearer its limit |
| Threads.DyingPrimaryLeaves | crates/wie-runtime/src/session.rs:1254-1412 | And nothing else does: in every run of a dying process, until the session is run again, the own steps of the primary are bounded by its counters and a constant for every such park |
| Threads.LoopingUntilBreak | crates/wie-runtime/src/session.rs:1254-1920 | In every run, dying or not, the primary stays in its loop exactly as long as it meets no error, no end of the process or of its thread, no empty message queue, no fortieth idle quantum and no call past the limits on API calls |
| Threads.SomeoneCanStep | crates/wie-runtime/src/mt_runtime.rs:172-482 | A thread that has not left can go on unless another holds the lock, and that one can |
| Threads.JoiningNeverHangs | crates/wie-runtime/src/mt_runtime.rs:146-168 | While the primary joins, somebody can go on |
| Threads.JoiningEnds | crates/wie-runtime/src/mt_runtime.rs:146-168 | While the primary joins every run is bounded, and when it has returned every worker has left after finish_tid |

## Left out

- Splitting of large blocks on the linked-list heap beyond the condition above; freeing an address
  inside a block or misaligned; reallocation in place.
- GuestHeapModel.GuestHeap.FreeCoherent: requires null, an address outside the region, or a block the
  allocator has handed out, because what stands in the word before any other address is the client's.
- GuestHeapAccel.HandleHeapFree: the same.
- GuestHeapAccel.HeapFreeHelper: the same.
- GuestHeapModel.GuestHeap.FreeKnownBlock: the block and its header word are mapped, outside the control
  block.
- GuestHeapAccel.MixedRun: assumes that only live blocks are freed, because a second free may ruin the
  heap (`HostBlockFreedTwice`).
- The helpers check no overflow of the cursor; the layout is assumed to end well below 2^64.
- StringOps.RunRepMovs: going forward, nothing is mapped in the last 8 MiB of the 64-bit address space, where
  the overlap test wraps.
- StringOps.RunRepStos: the same.
- StringOps.StringMovs: the same.
- StringOps.StringStos: the same.
- Memory that can be read can be written; the permissions of pages are not part of this model.
- Which host spans exist for the block paths is left open: the theorems hold for every choice.
- XOR, OR, AND and LODS; the JIT's own copy of the fast heap paths.
- Unwind.VirtualUnwind: the number of links followed is a parameter, because crafted data could chain in
  a circle; the theorems hold for every number.
- UnwindCalls.UnwindingAnyRun: RIP is past the prologue and RSP where the prologue left it. Bodies that
  move RSP, most stores into the frame without a frame register, machine frames and chained entries do not
  have the property. The order of the stores of a prologue is left open; only what they leave behind in
  memory is stated.
- StackWalk.ForcedUnwind: continuing a planned sequence of cleanups instead of unwinding is not part of
  this model.
- The sign extension of eight-byte values shifts by 64; the model is that of a build without overflow
  checks.
- LsdaLists.WalkIsSelect: the tables lie below 2^63, where the code's signed comparison of addresses
  is an unsigned one.
- LsdaTypes.CatchIsFound: there is a type table with an entry for every filter that occurs, call sites and
  landing pads do not run past the top of the address space, and the address looked up is not zero;
  `LsdaLists.LandingPadOnBytes` assumes none of this.
- The search for cleanup pads.
- Command lines are sequences of bytes; the conversion between UTF-8 and the guest's code page is not
  part of this model.
- Import patching of the loaded image, and protection of its pages.
- Method names of COM interfaces, traits of imports, and the content of the static name table, of
  which only the uniqueness of ids and names is assumed.
- HostStops.HookWindow.PlantGuestStubs: what the bodies do is left open; the theorems hold for every
  choice of their bytes with the lengths of the code.
- Threads: timed waits are single steps; handlers, guest code and waits may come out any way.
  Marking foreign thread objects finished when joining is not modelled.
- Floating point and SSE, page tables, kernel objects, WinAPI handlers other than heap allocation,
  the CLI and tracing.
