# A verified model of the core's SystemVerilog

The design is a single-issue RV64IMAC core with Sv39 translation, caches, a store buffer, a DMA engine and a shared
RAM. This project models its register-transfer level in Dafny and proves what each block promises to the blocks around
it, over every run.

How the model is built:

- A module with registers is a class: the registers are fields, its memories are arrays, and a method `Clock` is one
  clock edge. Bus inputs are arguments, outputs are results. Combinational `assign`s and `function automatic`s are
  functions, and the searches written as loops are loops.
- Beside the registers a class keeps ghost specification state (a flat memory, a reference machine, the requests still
  open). `Valid()` ties the two together, every edge keeps it, and `Clock` says what step the specification took. A
  claim about all runs then follows by induction; for the D-cache and the core the run theorems are also stated over
  whole traces.
- What the environment must do is a precondition of `Clock`: a bus accepts one request at a time and answers it once.
  For the D-cache and the core a loop clocks the model over any inputs and returns the run the theorems speak of
  (`ClockedCache.Drive`, `BackendRuns.Execute`), and `CachedReservations.UnitServesCache` shows that every run of the
  atomic unit is a run of the memory side the D-cache asks for. The other handshakes are stated, not derived from the
  neighbour's model.
- Line counts, buffer depth, TLB entries, queue sizes, RAM size and the operand width of the iterative units are
  parameters. A bus word is a sequence of eight bytes. Addresses are unbounded naturals except where their width decides
  the result (multiply/divide, Sv39, PMP, the DMA address registers).

| files | what they hold |
|---|---|
| `dcache_coherence`, `flat_memory`, `dcache`, `dcache_runs`, `dcache_clocked` | data cache with store buffer, write-through and write-back |
| `dcache_turns`, `dcache_hang`, `dcache_repeat`, `reservation` | its progress, what an invalidate does to a fill and to a waiting request, and LR/SC behind the cache |
| `sv39_spec`, `tlb`, `ptw`, `address_translation` | Sv39: reference walk, TLB, walker, translation front end |
| `backend_spec`, `backend`, `backend_runs` | EX, MEM and WB: forwarding, stalls, flushes, register file |
| `arithmetic`, `muldiv_units`, `muldiv` | multiplier, divider, operand preparation and sign repair |
| `amo_spec`, `amo` | LR/SC and read-modify-write over a one-outstanding bus |
| `memunit_lanes`, `memunit` | load/store unit with split misaligned accesses |
| `icache_spec`, `icache` | instruction cache with hit-under-fill, cancel and invalidate |
| `fetch_spec`, `fetch`, `fetcher` | queues, halfword reassembly, fetch state machine |
| `fabric_memory`, `fabric`, `dma` | RAM, arbitration and routing, copy engine |
| `pmp` | physical memory protection |
| `bytes`, `eei` | bus words, ring buffers, shared enumerations |

## What came out

Where the code does not meet the wider claim, the model keeps the code and states exactly when it does.

- **A flushed multiplication or division leaves its flags behind.** A control hazard found in MEM empties EX but not
  `exs_muldiv_is_requested` and `exs_muldiv_rvalided` (src/core.sv:400-436). The flags are stale if and only if such a
  flush has happened and nothing has left EX since (`BackendRuns.StaleFlags`); an instruction takes a stale answer if and
  only if it is an M instruction that leaves EX then (`BackendRuns.StaleEntry`), and what it takes is the answer to the
  operation the flushed one asked for (`BackendRuns.FlaggedOp`, `BackendRuns.RunIsMachine`). `BackendRuns.StaleAnswer`
  drives the core model through such a run: a multiplication of 0 by 0 leaves EX with 2^64 - 1.
- **REMW by zero** returns the whole of `op1` (src/muldivunit.sv:257). The answer is the ISA's if and only if `op1` is
  sign-extended from 32 bits (`MulDivUnit.EarlyResultExact`, `MulDivUnit.RemwByZeroExample`).
- **An `invalidate` that meets the word a D-cache fill waits for** skips the state machine (rtl/cache/dcache.sv:660-685),
  and the word is lost. A fill hangs if and only if this has happened, in write-back mode with no dirty line to flush,
  and no later invalidate has found one (`FillHang.HungIfStranded`); in write-through mode it hangs for ever
  (`FillHang.HungForGood`). `FillHang.LoseWord` drives the cache model there.
- **An `invalidate` that meets the acceptance of a waiting bypass request** leaves the request waiting, and memory takes
  it again (rtl/cache/dcache.sv:660-685, 934-939). It is taken once if and only if no invalidate comes in a cycle in
  which memory takes it, and once more for each that does (`CacheTurns.TakenOnceAndAgain`). `StoreRepeat.StoreTwice`
  drives the cache model through a device store that memory takes twice.
- **A request offered with an `invalidate` is acknowledged and dropped**: `ready` does not look at `invalidate`
  (rtl/cache/dcache.sv:342-348), the state machine does. It changes nothing the processor sees, and no answer comes
  (`DCache.DataCache.Clock`, `FlatRuns.NeverAnswered`). An atomic on RAM is driven to memory all the same, and a flat
  memory still explains the cache afterwards if and only if the line of its word is not held clean
  (`DCacheCoherence.ChangedUnheard`).
- **An AMO to a dirty line in write-back mode is driven to memory twice** (rtl/cache/dcache.sv:381-393, 725-737). The
  first time it works on the stale word, which the writeback then overwrites, but what it does to the reservation stays.
  The processor sees a difference if and only if it is a store-conditional that would have succeeded
  (`CachedReservations.EarlyHarmless`): that one always reports failure (`CachedReservations.EarlyConditionalFails`).
- **NA4 entries of the PMP never match** (src/pmp_checker.sv:140-154), although the registers can hold them. The answer is
  right if and only if no NA4 entry decides, or the first later entry of another mode that meets the access says the
  same (`Protection.RightUnlessPassedOver`). Both directions go wrong: an access that should be allowed is refused
  (`Protection.Na4Ignored`), and memory an NA4 entry should close is opened (`Protection.Na4Opens`).
- **The TLB does not check for canonical addresses** (rtl/mmu/tlb.sv:69). A hit is the direct translation if and only if
  the address is canonical (`TlbEntries.HitIsWalk`), and this is tracked up to the response of the translator;
  `TlbEntries.StrayHit` is such a hit.
- The store an AMO drives while it still waits for its load (src/amounit.sv:341-363) is never accepted
  (`AmoUnit.Unit.Clock`), and `DiscardWaitValid` of the load/store unit is never entered as the core uses it
  (`LoadStore.MemUnit.Clock`).
- A forward copy whose destination starts inside the source repeats the words between the two starts
  (`DmaEngine.OverlapRepeats`).

## Model

| member | source | states |
|---|---|---|
| DCache.DataCache.Clock | rtl/cache/dcache.sv:273-971 | every edge of every run, in both write policies, is one step of a flat memory (each response is the word owed, one request open at a time) and of the bus; a request offered with an invalidate is dropped, every other one that finds `ready` is taken in; a request blocked in Idle waits for one drain at a time while the cache stays idle and no store overtakes it; which state an admitted request leads to; work decreases on every edge memory serves, and no work is left exactly in Idle without a flush; a registered response always leaves, and a fast load is answered whenever it can be; a flush ends with no valid line and memory equal to the flat words; which edges leave a fill hung, and that it stays so until an invalidate starts a flush; an atomic takes effect on the reservation early exactly if it finds its line dirty and memory ready |
| DCache.DataCache.AllAnswered | rtl/cache/dcache.sv:452-971 | when no work is left and no response is under way, every accepted request has been answered |
| CacheTurns.RefusedDrains | rtl/cache/dcache.sv:299-348 | in every run in which an idle cache refuses the request held, it stays idle, and the stores still pending are those it began with less one for every edge memory was ready |
| CacheTurns.AcceptedOnceDrained | rtl/cache/dcache.sv:632-637 | so the held request is accepted by the time memory has been ready as often as stores were pending |
| CacheTurns.AcceptedInTime | rtl/cache/dcache.sv:452-971 | from any state, fill, write-back and flush included, a held request is accepted within 2 * work + pending stores + 1 edges that memory serves |
| CacheTurns.TakenOnceAndAgain | rtl/cache/dcache.sv:934-939 | a waiting bypass request is driven unchanged, and memory takes it once plus once for every invalidate that meets its acceptance; so once iff there is none |
| StoreRepeat.StoreTwice | rtl/cache/dcache.sv:660-685 | a run of the cache in which one device store is taken twice |
| DCache.DataCache.FastLoadHit | rtl/cache/dcache.sv:285-298 | the fast load answers with the flat word in its own cycle, exactly when idle, hit and no pending store meets its lanes |
| DCache.DataCache.StoreBufferOverlaps | rtl/cache/dcache.sv:229-244 | the ring search finds exactly whether a pending store shares word and lane with the access |
| DCache.DataCache.Prepare | rtl/cache/dcache.sv:299-348 | an admitted request finds its hit flag right, room for a store, and an empty buffer where it needs one; draining takes the oldest store only |
| DCache.DataCache.IdleStep | rtl/cache/dcache.sv:687-826 | accepting a request, in each of its cases, is the flat memory accepting it, and no case waits for a word no one asked for |
| DCache.DataCache.FillWait | rtl/cache/dcache.sv:834-864 | critical word first: the load is answered with the owed word, and after four words the line agrees with flat memory and hits, unless an invalidate cancelled it |
| DCache.DataCache.WritebackStep | rtl/cache/dcache.sv:865-896 | each word reaches memory before its line is given up; where the evicting state goes next; a finished flush leaves memory flat |
| DCache.DataCache.Scan | rtl/cache/dcache.sv:897-932 | the flush scan drops clean lines, writes back dirty ones, and ends with every line invalid |
| DCache.DataCache.Follow | rtl/cache/dcache.sv:827-971 | every busy state keeps the invariant, drives and follows the bus, and comes closer to idle whenever memory serves it |
| DCache.DataCache.Invalidate | rtl/cache/dcache.sv:660-685 | write-through drops all lines; write-back starts a flush or finds memory already flat; what an interrupted fill becomes |
| DCacheCoherence.HitReadsFlat | rtl/cache/dcache.sv:276-298 | a hit reads the flat word although stores still sit in the buffer |
| DCacheCoherence.EnqueueKeeps | rtl/cache/dcache.sv:786-826 | a buffered store, merged into its line on a hit, keeps lines, buffer and memory in step with flat memory |
| DCacheCoherence.DirtyStoreKeeps | rtl/cache/dcache.sv:786-826 | a write-back store hit changes only line and dirty bit and stays coherent |
| DCacheCoherence.DrainKeeps | rtl/cache/dcache.sv:632-637 | writing the oldest store to memory changes nothing the processor sees |
| DCacheCoherence.InstallKeeps | rtl/cache/dcache.sv:834-864 | a complete fill may replace a line that is not dirty |
| DCacheCoherence.CleanKeeps | rtl/cache/dcache.sv:865-896 | a line whose four words are written back may be cleaned or dropped |
| DCacheCoherence.CleanMeansFlat | rtl/cache/dcache.sv:897-932 | with an empty buffer and no dirty line, memory is the flat memory |
| DCacheCoherence.DropKeeps | rtl/cache/dcache.sv:660-685 | dropping lines that are not dirty loses nothing |
| DCacheCoherence.AtomicKeeps | rtl/cache/dcache.sv:710-737 | an atomic on a word no line holds acts on memory and flat memory alike |
| DCacheCoherence.HiddenAtomicKeeps | rtl/cache/dcache.sv:710-737 | whatever an early atomic writes to a memory word that a dirty line hides, the words the processor sees stay the same |
| DCacheCoherence.ChangedUnheard | rtl/cache/dcache.sv:381-393 | a word of memory that changes behind the cache leaves a flat memory in front of it iff its line is not held clean |
| FlatRuns.ReplayIsLatest | rtl/cache/dcache.sv:196-206 | byte-merging writes in order leaves in each byte what its latest writer stored |
| FlatRuns.RunReplays | rtl/cache/dcache.sv:452-971 | after any run memory is the initial memory with every accepted store and atomic merged in program order |
| FlatRuns.LoadReadsLatest | rtl/cache/dcache.sv:738-785 | in any run each byte of a load's answer is that of the latest store or atomic before the load, else the initial byte |
| FlatRuns.FastLoadReadsLatest | rtl/cache/dcache.sv:285-298 | the same for fast loads |
| FlatRuns.NeverAnswered | rtl/cache/dcache.sv:660-685 | in any run a request that came with an invalidate is never answered: nothing is, until another request is taken in |
| ClockedCache.Drive | rtl/cache/dcache.sv:452-971 | cache and memory clocked together make such a run, whatever processor, fast loads, invalidates, devices and memory timing do |
| DCache.DataCache.Bypass | rtl/cache/dcache.sv:710-737 | an atomic or device access goes to memory at once; a clean line is dropped, a dirty one written back first, and the early drive of the request changes the reservation only |
| CachedReservations.EarlyHarmless | rtl/cache/dcache.sv:381-393 | an atomic that reaches memory twice has the effect of once iff it is not a store-conditional that would have succeeded |
| CachedReservations.EarlyConditionalFails | rtl/cache/dcache.sv:725-737 | in every run a store-conditional driven early reports failure and writes nothing, whatever was reserved |
| CachedReservations.UnitServesCache | src/amounit.sv:244-372 | every run of the atomic unit that begins with nothing pending, or with the fate of what is pending known, is a run of the memory side the D-cache relies on: at every edge the answers are those the protocol asks for, memory and reservation mirror the unit's, and the reservation the cache sees is lost exactly when the unit's is cleared, or an LR or SC for a device, or an SC that will fail is taken |
| CachedReservations.Serve | src/amounit.sv:374-794 | an edge of the atomic unit's registers goes on with any such run, with the wires of that cycle |
| CachedReservations.FateIsAnswer | src/amounit.sv:513-528 | over the whole wait of a store-conditional, what was foretold when it was taken is what it reports |
| FillHang.HungIfStranded | rtl/cache/dcache.sv:660-685 | in every run a fill hangs iff an invalidate met its word with nothing dirty to flush, and none since has started a flush |
| FillHang.HungForGood | rtl/cache/dcache.sv:660-685 | a hung write-through cache admits no request and asks memory for nothing ever after |
| FillHang.LoseWord | rtl/cache/dcache.sv:660-685 | a run of the cache that ends hung |
| Sv39Spec.WalkPrefix | rtl/mmu/tlb.sv:72-133 | a leaf at some level is reached by every page number with the same prefix down to that level |
| Sv39Spec.SplicedIsPageAddress | src/sv39_ptw.sv:161-173 | joining frame bits and offset bits gives frame*4096 + offset iff the frame is aligned to the page size |
| TlbEntries.PermissionAgrees | rtl/mmu/tlb.sv:215-325 | the allowed flag and the fault detail, computed separately, agree |
| TlbEntries.HitIsWalk | rtl/mmu/tlb.sv:330-378 | a matching entry's answer (fault, cause, detail, value, address) is the direct walk's under the access's own type, privilege, SUM and MXR, iff the address is canonical |
| TlbEntries.StrayHit | rtl/mmu/tlb.sv:69-71 | tables, an entry true of them and a non-canonical address that it answers, where the walk refuses |
| TlbEntries.MatchingEntriesAgree | rtl/mmu/tlb.sv:72-133 | any two matching entries give the same answer |
| TlbEntries.RefillOk | rtl/mmu/tlb.sv:407-435 | the leaf of a successful walk stands for every address it will match, in every address space if global |
| TlbEntries.MatchIsSameKey | rtl/mmu/tlb.sv:135-170 | a refill matches exactly the valid entries with its key (level, masked page number, global bit, ASID) |
| TlbEntries.RefillKeepsKeys | rtl/mmu/tlb.sv:383-449 | no two valid entries ever share a key |
| TlbEntries.SlotSurvives | rtl/mmu/tlb.sv:436-448 | over any sequence of refills a slot keeps its key until its round-robin turn |
| TlbEntries.InsertedSurvives | rtl/mmu/tlb.sv:436-448 | an inserted mapping survives the next ENTRY_COUNT - 1 insertions, and is next in turn after them |
| TlbUnit.Tlb.Lookup | rtl/mmu/tlb.sv:330-378 | hits iff some entry matches; the answer is the direct translation iff the address is canonical |
| TlbUnit.Tlb.RefillSlot | rtl/mmu/tlb.sv:383-402 | the search finds the first matching entry, else the round-robin slot |
| TlbUnit.Tlb.Clock | rtl/mmu/tlb.sv:407-449 | one edge of refills and flushes keeps every entry true of the page tables and keys apart |
| PageWalk.ChecksAreObjection | src/sv39_ptw.sv:136-165 | the walker's separate checks, in its order, find the architecture's first objection |
| PageWalk.Verdict | src/sv39_ptw.sv:370-414 | each decision on a page table entry is that of the recursive walk: same fault, same descent, same leaf |
| PageWalk.Ptw.CheckEntry | src/sv39_ptw.sv:370-414 | a check ends the walk with the direct translation or goes one level down |
| PageWalk.Ptw.TakeResponse | src/sv39_ptw.sv:352-368 | a read error ends the walk as an access fault; data is checked next |
| PageWalk.Ptw.Start | src/sv39_ptw.sv:321-339 | a walk starts at level 2 from the satp root, or ends at once for a non-canonical address |
| PageWalk.Ptw.Flush | src/sv39_ptw.sv:287-318 | a flush drops the walk and drains exactly the read that is in flight, also one accepted in the flush cycle |
| PageWalk.Ptw.Clock | src/sv39_ptw.sv:268-430 | over every run: at most one read in flight, a stale answer is never used, reports are direct translations, edges and reads left decrease (at most three reads a walk) |
| AddressTranslation.Translator.Outputs | rtl/mmu/address_translation.sv:144-258 | when a request is taken or answered at once, and that the answer is right iff it is not a TLB answer to a non-canonical address |
| AddressTranslation.Translator.RefillTlb | rtl/mmu/address_translation.sv:305-340 | only leaves of fault-free walks enter the TLB, and not in a TLB flush |
| AddressTranslation.Translator.WalkerEdge | rtl/mmu/address_translation.sv:359-402 | a read denied by protection is answered by an injected error, so the walker always waits for a real read or a pending denial; its edges left decrease |
| AddressTranslation.Translator.Clock | rtl/mmu/address_translation.sv:701-817 | every answer belongs to the oldest open request and equals the direct translation, by hit or by walk, iff the TLB did not stray; flushes drop it; it comes closer on every edge served |
| Backend.ForwardingFinds | src/core.sv:277-341 | without a hazard the forwarded operand is the value the register will have after all older instructions |
| Backend.OfferIsRight | src/core.sv:536-564 | what leaves EX carries those operands and the result they determine, or with stale flags the answer to the operation in the unit |
| Backend.AskIsRight | src/core.sv:375-394 | so does what is handed to the multiply/divide unit |
| Backend.MemRetires | src/core.sv:863-874 | what leaves MEM extends the trace sequentially, trapped or not |
| Backend.WbWrites | src/core.sv:1226-1238 | the pending write-back turns the register file into the register state after the whole trace |
| Backend.EdgeKeeps | src/core.sv:1838-1885 | every combination of stall, load wait, multi-cycle operation, early redirect and trap flush keeps all of this |
| Backend.Core.WriteBack | src/core.sv:1498-1502 | the register file becomes the architectural one |
| Backend.Core.Clock | src/core.sv:277-564 | one edge: instructions retire in order, none lost or doubled, each with the operands its elders left; results of the M unit are right unless marked stale |
| BackendSpec.TraceIsMachine | src/core.sv:1226-1238 | a sequential trace has exactly the register writes and final registers of a machine that finishes each instruction before the next |
| BackendSpec.StaleResult | src/core.sv:397-436 | a stale result is right iff the flushed operation has the same answer as the instruction's own |
| BackendRuns.Execute | src/core.sv:1838-1885 | every sequence of inputs makes the core take the run the following speak of |
| BackendRuns.StaleFlags | src/core.sv:397-436 | in every run the multiply/divide flags are stale iff a requested M instruction was flushed and nothing has left EX since |
| BackendRuns.FlaggedOp | src/core.sv:375-394 | the flags belong to the operation asked for last, by an instruction that has not left EX since |
| BackendRuns.StaleEntry | src/core.sv:397-436 | the entry in MEM took a flushed one's answer iff it is an M instruction that left EX with stale flags |
| BackendRuns.StaleTrace | src/core.sv:397-436 | the trace holds a stale result iff such an entry has retired |
| BackendRuns.RunIsMachine | src/core.sv:1226-1238 | in every run registers and writes are those of sequential execution in which a stale instruction computes what the flushed one asked for |
| BackendRuns.SequentialIfClean | src/core.sv:397-436 | and in which every instruction computes its own operation iff no stale entry has retired |
| BackendRuns.StaleAnswer | src/core.sv:397-436 | a run in which a multiplication of 0 by 0 leaves EX with 2^64 - 1 |
| MulDivUnit.MulDiv.Clock | src/muldivunit.sv:211-307 | every accepted operation is answered once, within 68 edges, with the RV64M result iff it is not REMW by zero of an unextended word; the answer holds until the next acceptance |
| MulDivUnit.MulSelectCorrect | src/muldivunit.sv:264-285 | multiplying magnitudes and repairing the sign gives MUL, MULH, MULHSU, MULHU and MULW of any operands |
| MulDivUnit.DivSelectCorrect | src/muldivunit.sv:286-301 | dividing magnitudes and repairing signs gives all eight divisions and remainders, rounding toward zero, also unsigned by zero |
| MulDivUnit.EarlyResultExact | src/muldivunit.sv:240-258 | the shortcut for overflow and signed division by zero is the ISA's result iff it is not REMW by zero of an unextended word |
| MulDivUnit.RemwByZeroExample | src/muldivunit.sv:240-258 | the operand for which it is not |
| IterativeUnits.MulUnit.Clock | src/muldivunit.sv:349-385 | for any WIDTH: WIDTH + 2 edges after acceptance the result is the full product |
| IterativeUnits.AddStep | src/muldivunit.sv:349-385 | one step keeps op1*op2 = result + shifted op1 * remaining op2, without overflow |
| IterativeUnits.DivUnit.Clock | src/muldivunit.sv:424-473 | for any WIDTH: within WIDTH plus a constant edges quotient and remainder satisfy n = q*d + r with r < d, or the all-ones convention for d = 0 |
| IterativeUnits.SubStep | src/muldivunit.sv:424-473 | one trial subtraction keeps n = r + q * shifted d with r below it, and loses no quotient bit |
| RV64M.QuotRem | src/muldivunit.sv:286-301 | the reference division has a remainder smaller than the divisor, with the dividend's sign |
| AmoUnit.Unit.Clock | src/amounit.sv:244-372 | each request takes effect once and at once in an atomic memory, with exactly one bus write iff it changes memory; answers are the ones owed; the store driven in AMOLoadValid is never taken; SC writes and reports 0 iff the last event was an LR of its address |
| AmoUnit.WriteIsUpdate | src/amounit.sv:94-192 | the masked write leaves op(old, rs2) in the addressed word or half and every other byte alone, for all nine operations |
| AmoUnit.AcceptKeeps | src/amounit.sv:456-510 | accepting a request in any of the accepting states, what is saved of it and of the reservation included, is one atomic-memory step |
| AmoUnit.WaitReadyKeeps | src/amounit.sv:513-528 | waiting for the bus, also when the reservation is cleared meanwhile, is one |
| AmoUnit.ModifyKeeps | src/amounit.sv:693-719 | load, answer and store of a read-modify-write change memory once, at the store |
| AtomicMemory.ReservationFollows | src/amounit.sv:784-791 | over any run the reservation is what the last LR, SC or clear made it |
| LittleEndian.NumberOfDigits | src/amounit.sv:94-192 | writing a number as bytes and reading it back is the number modulo the size |
| LittleEndian.DigitsOfNumber | src/amounit.sv:94-192 | and the other way round |
| ByteLanes.StoreIsExact | src/memunit.sv:223-230 | for every address and size the one or two masked writes change exactly the bytes stored |
| ByteLanes.LoadIsExact | src/memunit.sv:207-221 | the extracted value is the bytes of the access, from one word or two, extended as funct3 says |
| ByteLanes.LoadAfterStore | src/memunit.sv:151-163 | a load after a store of the same size returns the stored low bytes, extended |
| ByteLanes.LoadBesideStore | src/memunit.sv:151-163 | a load of other bytes is unchanged |
| LoadStore.MemUnit.Clock | src/memunit.sv:369-468 | an instruction that is not refused ends having stored or loaded exactly its bytes, split or not, by bus or fast load, and stalls until then; it is refused iff a check fails (alignment, page crossing, translation, protection), with the first failing check's cause and address, and memory is left alone; an atomic asks for the operation the instruction names and returns the memory side's answer, extended, or the code of a store-conditional; a misaligned access goes to ordinary memory only; it moves on whenever served |
| LoadStore.MemUnit.Advance | src/memunit.sv:630-795 | every branch of the access state machine keeps this |
| LoadStore.AtomicIsWellFormed | src/memunit.sv:645-671 | the request of an aligned atomic has the strobes and alignment the atomic unit relies on |
| LoadStore.AtomicReturnsOld | src/memunit.sv:207-221 | an atomic answered with the word it found returns what a load of its size would have |
| ICacheUnit.ICache.Clock | rtl/cache/icache.sv:183-380 | over every run each answer is the memory word of the outstanding request; a cancelled or invalidated request is never answered; none is forgotten; fills progress; an invalidate leaves no valid line |
| ICacheUnit.ICache.Lookup | rtl/cache/icache.sv:229-262 | a request is answered from its line or starts the fill that serves it |
| ICacheUnit.ICache.TakeFillHit | rtl/cache/icache.sv:264-286 | a request may be answered from a line still filling |
| ICacheUnit.ICache.Receive | rtl/cache/icache.sv:288-326 | the demanded word goes to the client, the last one makes the line valid under its tag, and the fill gets shorter |
| ICacheUnit.ICache.Invalidate | rtl/cache/icache.sv:192-226 | a fill caught by an invalidate never becomes a valid line, and memory may change under it |
| ICacheLines.HitReadsMemory | rtl/cache/icache.sv:88-96 | a hit delivers the memory word |
| ICacheLines.FillHitReadsMemory | rtl/cache/icache.sv:97-103 | so does a hit on the words already received |
| ICacheLines.DemandedFirst | rtl/cache/icache.sv:104-115 | the first word a fill receives is the demanded one |
| ICacheLines.ReceivedKeeps | rtl/cache/icache.sv:300-324 | each received word is recorded for its own place in the line |
| ICacheLines.LineInstalled | rtl/cache/icache.sv:310-320 | the completed line is the memory it is tagged with |
| Queues.Fifo.Clock | src/fifo.sv:43-90 | the ring is a queue: flush empties it, write appends if there is room, read drops the oldest, both may happen at once |
| InstructionStream.StreamFirst | src/inst_fetcher.sv:329-468 | the stream of a program is its first instruction followed by the stream from the next one |
| Fetch.PickIsNext | src/inst_fetcher.sv:329-468 | what reassembly forms is the next instruction of the program, also across two blocks, and nothing is skipped |
| Fetch.FrontAdvances | src/inst_fetcher.sv:921-1031 | an edge keeps queued blocks, saved halfword, queued instructions and the request address one unbroken stream |
| InstFetcher.Fetcher.Clock | src/inst_fetcher.sv:710-785 | over every run the instructions given to the core since the last redirect are a prefix of the program's; each block is asked for at its own address, or at the translated one if translation is on; answers are always taken; there is room for every block that is awaited; the fetcher asks whenever there is room |
| InstFetcher.Fetcher.Advance | src/inst_fetcher.sv:921-1031 | the same for an edge without redirect |
| InstFetcher.Fetcher.Ask | src/inst_fetcher.sv:710-742 | a request is made only with room for its answer, and for the address the fetch registers record |
| InstFetcher.Fetcher.Redirect | src/inst_fetcher.sv:907-920 | a redirect empties both queues and restarts at the new address |
| InstFetcher.Fetcher.QueueBlocks | src/inst_fetcher.sv:67-85 | with its bypass the block queue loses and doubles nothing |
| InstFetcher.Fetcher.QueueInstructions | src/inst_fetcher.sv:471-500 | with its bypass the instruction queue offers the oldest instruction |
| RamMemory.Memory.Clock | src/memory.sv:47-98 | the two-state memory holds every accepted masked write at once, answers reads next edge and writes one later |
| RamFabric.Fabric.Clock | src/mmio_controller.sv:214-277 | every accepted request is answered exactly once, to the side that made it, with the word memory held when it took it; RAM is the accepted writes applied in acceptance order; a RAM request waits at most five edges |
| RamFabric.Fabric.Outputs | src/top.sv:254-302 | a port shows a response exactly when the request open in the core is its own and is answered in this cycle, with the word owed; the DMA port likewise; a side is ready exactly when no core request is open and the other side does not go first, and the engine exactly when neither it nor a core request has the RAM to wait for |
| RamFabric.StepKeeps | src/ram_arbiter.sv:18-84 | over an edge of multiplexer, request holder and arbiter the registers keep agreeing with the open requests and their answers, and a CPU request waits for at most one other |
| DmaEngine.Dma.Clock | src/dma.sv:104-242 | with arbitrary traffic outside the transfer, DONE means every word of it is as a forward copy leaves it; the engine writes nothing else; bad alignment is refused and reported; done and error bits come up for these reasons only; remaining work decreases |
| DmaEngine.Dma.Access | src/dma.sv:126-167 | every register reads as it stands, and unmapped addresses as zero; addresses and length do not change under a running transfer; when the start pulse and the interrupt enable come up and the status bits go down |
| DmaEngine.Dma.Start | src/dma.sv:173-198 | a start is refused, done at once or begins the transfer the registers name |
| DmaEngine.Dma.Machine | src/dma.sv:172-242 | what starts, ends or refuses a transfer, and which status bit it leaves |
| DmaEngine.Dma.Transfer | src/dma.sv:199-226 | a running transfer takes only its own read's answer and advances the copy word by word |
| DmaEngine.WriteAdvances | src/dma.sv:216-226 | writing the word just read takes the copy one word further |
| DmaEngine.CopyMovesSource | src/dma.sv:172-242 | the destination gets the old source words unless it starts inside the source |
| DmaEngine.OverlapRepeats | src/dma.sv:172-242 | when it starts inside the source, the destination repeats the words between the two starts |
| DmaEngine.CopyUntouched | src/dma.sv:172-242 | words outside the destination are unchanged |
| Protection.Check | src/pmp_checker.sv:98-162 | access is allowed iff M mode, or the lowest entry whose bytes meet the access contains all of it and grants it, NA4 entries left out; and exactly when that is the architecture's answer |
| Protection.EntryCheck | src/pmp_checker.sv:131-154 | overlap and containment of each entry are those of its byte set |
| Protection.NapotCheck | src/pmp_checker.sv:49-96 | the search for the first zero bit and the masks decide meeting and containment of the naturally aligned block |
| Protection.RangesRight | src/pmp_checker.sv:20-47 | the interval comparisons mean sharing a byte, and containing every byte |
| Protection.OnesEnd | src/pmp_checker.sv:49-96 | the first zero bit is the number of trailing ones |
| Protection.RightUnlessPassedOver | src/pmp_checker.sv:131-154 | leaving NA4 entries out gives the right answer iff M mode, or no NA4 entry decides, or the first later entry of another mode that meets the access says the same |
| Protection.PassedOver | src/pmp_checker.sv:131-154 | which entry decides when NA4 entries are passed over |
| Protection.Na4Ignored | src/pmp_checker.sv:131-154 | an access an NA4 entry should allow, refused |
| Protection.Na4Opens | src/pmp_checker.sv:131-154 | an access an NA4 entry should refuse, allowed |

## Left out

- DCache.DataCache.Clock: in an `invalidate` cycle no processor request may be unanswered, and memory may not take an atomic on RAM from the processor, because the code skips the state machine in that cycle (`DCacheCoherence.ChangedUnheard` says when that would matter).
- DCache.DataCache.Clock: what an atomic on a device does to the reservation, except that it may be lost.
- DCache.DataCache.Clock: `fill_word_valid`, which nothing reads, and when exactly the low-priority hint is set.
- AddressTranslation.Translator.Clock: page tables, protection and satp may change only with a TLB flush, and a global leaf must be the same in every address space, as the architecture asks of software; the protection check of the walker's reads is an input function.
- Backend.Core.Clock: register semantics only; where the next instruction comes from is an input, and so are the answers of ALU, load/store unit and CSR unit (ALU as a function of instruction and operands).
- MulDivUnit.MulDiv.Clock: says nothing of the answer to funct3/op32 pairs the ISA does not define, which the unit also finishes.
- LoadStore.MemUnit.Clock: what an atomic leaves in memory is whatever the memory side makes of the request, which the atomic unit's model covers; faults of the translation are passed on, not interpreted.
- AmoUnit.Unit.Clock: requests are aligned and strobed as the load/store unit forms them; atomicity against DMA traffic, which the design does not provide.
- ICacheUnit.ICache.Clock: memory changes only with an invalidate, so stores into code without a fence are not covered.
- InstFetcher.Fetcher.Clock: predictions (they are hints) and fetch faults; the expansion of compressed instructions is a function.
- DmaEngine.Dma.Clock: other traffic may not touch the words of a running transfer; nothing is said of a transfer that does not lie in RAM.
- Protection.Check: the lock bit, and accesses that wrap around the top of the address space.
- Branch predictor, branch target buffer, return stack: hints only.
- Decoder, ALU, branch unit, compressed-instruction expander: small and stateless.
- CSR unit, PLIC, ACLINT, UART: mostly one-step register updates or console I/O.
- Performance counters, traces, plusargs and lockstep ports: observation only.
- Coherence of the caches with DMA, and physical addresses that alias above the RAM.
- The initial contents of RAM loaded from a file, and `src/membus_arbiter_cpu_prio.sv`, which the build does not use.
