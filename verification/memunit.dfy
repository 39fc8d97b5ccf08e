/** The load/store unit: address checks, translation, and accesses that may straddle two bus words. */
module LoadStore {
  import opened Bytes
  import opened Eei
  import opened ByteLanes
  import opened Quotients
  import AtomicMemory
  import FlatMemory
  import Sv39Spec

  datatype State =
    | Init | TranslateWait | AccessWaitReady | AccessWaitValid | SplitAccessWaitReady | SplitAccessWaitValid
    | DiscardWaitValid | Fault

  datatype Owner = NoOwner | Translation | Data

  datatype Cause = LoadMisaligned | StoreMisaligned | LoadAccess | StoreAccess | Translated(c: Sv39Spec.Cause)

  /** A memory instruction in MEM. */
  datatype Op = Op(addr: nat, rs2: Word, isLoad: bool, isStore: bool, isAmo: bool, funct3: nat, amoop: AmoOp, aq: bool, rl: bool)

  /** One cycle's inputs: the instruction, protection, the translator and the data bus. */
  datatype In = In(
    valid: bool, isNew: bool, op: Option<Op>, needTranslate: bool, pmpAllow: bool,
    trRspValid: bool, trFault: bool, trCause: Sv39Spec.Cause, trValue: nat, trPa: nat, trMemValid: bool, trMemAddr: nat,
    ready: bool, rvalid: bool, rdata: Word, fastValid: bool, fastData: Word)

  datatype Out = Out(stall: bool, rdata: Word, paddr: nat, expt: Option<(Cause, nat)>,
                     bus: Option<FlatMemory.Access>, fast: Option<nat>)

  /** The saved request and the other registers. */
  datatype Saved = Saved(wen: bool, vaddr: nat, paddr: nat, rs2: Word, wdata: Word, wmask: Mask, isAmo: bool, amoop: AmoOp,
                         aq: bool, rl: bool, funct3: nat, offset: nat, size: nat, crosses: bool)

  datatype Regs = Regs(state: State, owner: Owner, q: Saved, firstRdata: Word, loadResult: Word, fault: (Cause, nat))

  // ---- address checks ----

  predicate Misaligned(funct3: nat, addr: nat) { addr % AccessSize(funct3) != 0 }

  predicate AmoMisaligned(funct3: nat, addr: nat) {
    if funct3 == 2 then addr % 4 != 0 else if funct3 == 3 then addr % 8 != 0 else true
  }

  predicate NeedsWrite(wen: bool, isAmo: bool, amoop: AmoOp) { wen && (!isAmo || amoop != LR) }

  // ---- wires ----

  predicate CanIssue(normal: nat -> bool, r: Regs, c: In) {
    && c.valid && r.state == TranslateWait && c.trRspValid && !c.trFault
    && !(Misaligned(r.q.funct3, r.q.vaddr) && !normal(c.trPa)) && c.pmpAllow
  }

  predicate Plain(q: Saved) { !q.wen && !q.isAmo && !q.crosses }

  predicate FastTranslated(normal: nat -> bool, r: Regs, c: In) { CanIssue(normal, r, c) && Plain(r.q) }

  predicate FastAccess(r: Regs, c: In) { c.valid && r.state == AccessWaitReady && Plain(r.q) }

  function FastAsks(normal: nat -> bool, r: Regs, c: In): Option<nat> {
    if c.trMemValid then None
    else if FastTranslated(normal, r, c) then Some(c.trPa)
    else if FastAccess(r, c) then Some(r.q.paddr)
    else None
  }

  predicate DataRvalid(r: Regs, c: In) { c.rvalid && r.owner == Data }

  function FirstAccess(q: Saved, pa: nat): FlatMemory.Access {
    FlatMemory.Access(pa, q.wen, q.wdata, q.wmask, q.isAmo, q.amoop, q.aq, q.rl, q.funct3)
  }

  function SecondAccess(q: Saved): FlatMemory.Access
    requires q.crosses ==> 0 < q.offset < 8 && q.offset + q.size > 8
  {
    var write := q.wen && q.crosses;
    FlatMemory.Access(q.paddr / 8 * 8 + 8, q.wen, if write then SecondData(q.rs2, q.offset) else ZERO_WORD,
                      if write then SecondMask(q.offset, q.size) else ByteMask(0), false, LR, false, false, q.funct3)
  }

  predicate Lanes(q: Saved) { q.crosses ==> 0 < q.offset < 8 && q.offset + q.size > 8 }

  function Drives(normal: nat -> bool, r: Regs, c: In): Option<FlatMemory.Access>
    requires Lanes(r.q)
  {
    if c.valid && c.trMemValid then
      Some(FlatMemory.Access(c.trMemAddr, false, ZERO_WORD, ByteMask(0), false, LR, false, false, 3))
    else if FastTranslated(normal, r, c) then if c.fastValid then None else Some(FirstAccess(r.q, c.trPa))
    else if CanIssue(normal, r, c) then Some(FirstAccess(r.q, c.trPa))
    else if FastAccess(r, c) then if c.fastValid then None else Some(FirstAccess(r.q, r.q.paddr))
    else if c.valid && r.state == AccessWaitReady then Some(FirstAccess(r.q, r.q.paddr))
    else if c.valid && r.state == SplitAccessWaitReady then Some(SecondAccess(r.q))
    else None
  }

  predicate FastDone(normal: nat -> bool, r: Regs, c: In) {
    c.fastValid && (FastTranslated(normal, r, c) || FastAccess(r, c))
  }

  function Rdata(normal: nat -> bool, r: Regs, c: In): Word
    requires r.q.offset < 8
  {
    if FastDone(normal, r, c) then ExtractLoadData(ZERO_WORD, c.fastData, r.q.offset, r.q.funct3)
    else if r.q.isAmo && r.q.amoop == SC then c.rdata
    else if r.q.crosses && r.state == SplitAccessWaitValid && DataRvalid(r, c) then
      ExtractLoadData(c.rdata, r.firstRdata, r.q.offset, r.q.funct3)
    else if r.q.crosses then r.loadResult
    else ExtractLoadData(ZERO_WORD, c.rdata, r.q.offset, r.q.funct3)
  }

  predicate Stall(normal: nat -> bool, r: Regs, c: In) {
    match r.state
    case Init => c.valid && c.isNew && c.op.Some?
    case TranslateWait => c.valid && !(FastTranslated(normal, r, c) && c.fastValid)
    case AccessWaitReady => c.valid && !(FastAccess(r, c) && c.fastValid)
    case AccessWaitValid => c.valid && (!DataRvalid(r, c) || r.q.crosses)
    case SplitAccessWaitReady => c.valid
    case SplitAccessWaitValid => c.valid && !DataRvalid(r, c)
    case DiscardWaitValid => c.valid
    case Fault => false
  }

  // ---- the memory on the other side ----

  datatype Flight = Quiet | Walking | Reading(w: Word) | Atomic(answer: Word)

  /** What the memory side makes of an atomic: the memory it leaves and its answer. */
  datatype Effect = Effect(mem: Mem, answer: Word)

  datatype Port = Port(mem: Mem, flight: Flight)

  /** The bus takes one request at a time and answers reads, also the fast ones, with what memory holds. */
  ghost predicate PortOk(normal: nat -> bool, p: Port, r: Regs, c: In) {
    && (c.ready ==> p.flight == Quiet || c.rvalid)
    && (c.rvalid ==> p.flight != Quiet)
    && (c.rvalid && p.flight.Reading? ==> c.rdata == p.flight.w)
    && (c.rvalid && p.flight.Atomic? ==> c.rdata == p.flight.answer)
    && (c.fastValid ==> FastAsks(normal, r, c).Some? && c.fastData == p.mem[FastAsks(normal, r, c).value / 8])
  }

  /** The bus after an edge; what an atomic does is up to the memory side. */
  ghost function PortNext(p: Port, walk: bool, q: Option<FlatMemory.Access>, c: In, atomic: Effect): Port {
    if q.Some? && c.ready then
      var a, k := q.value, q.value.addr / 8;
      if walk then Port(p.mem, Walking)
      else if a.isAmo then Port(atomic.mem, Atomic(atomic.answer))
      else if a.wen then Port(p.mem[k := Merge(p.mem[k], a.wdata, a.wmask)], Quiet)
      else Port(p.mem, Reading(p.mem[k]))
    else if c.rvalid then p.(flight := Quiet)
    else p
  }

  // ---- what the registers mean ----

  /** The instruction being executed and memory as it was when it began. */
  datatype Job = NoJob | Job(op: Op, mem: Mem)

  predicate SavedFrom(q: Saved, op: Op) {
    && q.wen == op.isStore && q.vaddr == op.addr && q.rs2 == op.rs2 && q.isAmo == op.isAmo && q.amoop == op.amoop && q.aq == op.aq && q.rl == op.rl
    && q.funct3 == op.funct3 && q.offset == op.addr % 8 && q.size == AccessSize(op.funct3)
    && q.crosses == (!op.isAmo && Crosses(op.addr, q.size))
    && q.wdata == DataShifted(op.rs2, q.offset)
    && q.wmask == if op.isAmo then MaskShifted(ByteMask(q.size), q.offset) else FirstMask(op.addr, q.size)
  }

  predicate SamePage(a: nat, b: nat) { a % 4096 == b % 4096 }

  predicate InPage(op: Op) { op.addr % 4096 + AccessSize(op.funct3) <= 4096 }

  predicate Accessing(s: State) { s in {AccessWaitReady, AccessWaitValid, SplitAccessWaitReady, SplitAccessWaitValid} }

  ghost predicate UnitOk(normal: nat -> bool, r: Regs, job: Job, p: Port) {
    && r.q.offset < 8 && Lanes(r.q)
    && (r.owner == Translation <==> p.flight == Walking)
    && (r.owner == Data <==> p.flight.Reading? || p.flight.Atomic?)
    && (r.state == Init ==> job == NoJob && p.flight == Quiet)
    && (Accessing(r.state) && Misaligned(r.q.funct3, r.q.vaddr) ==> normal(r.q.paddr))
    && (r.state != Init ==> job.Job? && SavedFrom(r.q, job.op))
    && match r.state
       case Init => true
       case TranslateWait => p.mem == job.mem && InPage(job.op) && (p.flight == Quiet || p.flight == Walking)
       case AccessWaitReady => p.mem == job.mem && p.flight == Quiet && SamePage(r.q.paddr, r.q.vaddr)
       case AccessWaitValid =>
         && SamePage(r.q.paddr, r.q.vaddr)
         && (if r.q.isAmo then p.flight.Atomic?
             else !r.q.wen && p.mem == job.mem && p.flight == Reading(job.mem[r.q.paddr / 8]))
       case SplitAccessWaitReady =>
         && r.q.crosses && SamePage(r.q.paddr, r.q.vaddr) && p.flight == Quiet
         && (if r.q.wen then p.mem == FirstWrite(job.mem, r.q.paddr, r.q.size, r.q.rs2)
             else p.mem == job.mem && r.firstRdata == job.mem[r.q.paddr / 8])
       case SplitAccessWaitValid =>
         && r.q.crosses && SamePage(r.q.paddr, r.q.vaddr) && !r.q.wen && p.mem == job.mem
         && p.flight == Reading(job.mem[r.q.paddr / 8 + 1]) && r.firstRdata == job.mem[r.q.paddr / 8]
       case DiscardWaitValid => false
       case Fault => p.mem == job.mem && p.flight == Quiet
  }

  /** How the core and the translator use the unit: an instruction stays until it no longer stalls, the translator
      answers or reads only while asked, keeps page offsets, and answers only when none of its reads is open. */
  predicate UseOk(r: Regs, c: In, p: Port) {
    && (!c.valid ==> r.state == Init || r.state == Fault)
    && (c.trMemValid || c.trRspValid ==> c.valid && r.state == TranslateWait)
    && !(c.trMemValid && c.trRspValid)
    && (c.trRspValid ==> p.flight != Walking && (!c.trFault ==> SamePage(c.trPa, r.q.vaddr)))
    && (c.trMemValid ==> p.flight == Quiet)
  }

  /** Where the access goes. */
  function Target(r: Regs, c: In): nat { if r.state == TranslateWait then c.trPa else r.q.paddr }

  /** Steps an access still needs, on cycles on which the translator or the bus does its part. */
  function StepsLeft(s: State): nat {
    match s
    case TranslateWait => 5
    case AccessWaitReady => 4
    case AccessWaitValid => 3
    case SplitAccessWaitReady => 2
    case SplitAccessWaitValid => 1
    case _ => 0
  }

  predicate Served(r: Regs, c: In) {
    match r.state
    case TranslateWait => c.trRspValid
    case AccessWaitReady => c.ready || (c.fastValid && Plain(r.q))
    case SplitAccessWaitReady => c.ready
    case _ => DataRvalid(r, c)
  }

  /** The result of an atomic: the code of a store-conditional as it is, otherwise the operand found, extended. */
  function AtomicResult(op: Op, answer: Word): Word {
    if op.amoop == SC then answer else ExtractLoadData(ZERO_WORD, answer, op.addr % 8, op.funct3)
  }

  /** The request an atomic makes of the memory side. */
  function AtomicRequest(op: Op, addr: nat): FlatMemory.Access {
    FlatMemory.Access(addr, op.isStore, DataShifted(op.rs2, op.addr % 8), MaskShifted(ByteMask(AccessSize(op.funct3)), op.addr % 8),
                      true, op.amoop, op.aq, op.rl, op.funct3)
  }

  /** What a finished instruction has done: a store changed exactly its bytes, a load returned exactly its bytes, an
      atomic returned the answer of the memory side. */
  ghost predicate Finished(job: Job, addr: nat, flight: Flight, mem: Mem, rdata: Word) {
    && job.Job?
    && var op := job.op;
       if op.isAmo then flight.Atomic? && rdata == AtomicResult(op, flight.answer)
       else if op.isStore then mem == Stored(job.mem, addr, AccessSize(op.funct3), op.rs2)
       else mem == job.mem && rdata == LoadValue(job.mem, addr, op.funct3)
  }

  /** An atomic that is answered with the word it found returns what a load of the same size would have. */
  lemma AtomicReturnsOld(m: Mem, op: Op, addr: nat)
    requires op.isAmo && op.amoop != SC && !AmoMisaligned(op.funct3, op.addr) && SamePage(addr, op.addr)
    ensures AtomicResult(op, m[addr / 8]) == LoadValue(m, addr, op.funct3)
  {
    hide ExtractLoadData, LoadValue;
    SameLanes(addr, op.addr, AccessSize(op.funct3));
    Aligned(op.funct3, op.addr);
    LoadIsExact(m, addr, op.funct3);
  }

  lemma Aligned(funct3: nat, addr: nat)
    requires !AmoMisaligned(funct3, addr)
    ensures !Crosses(addr, AccessSize(funct3))
  {
  }

  /** Page offsets decide lanes, so the physical access has the lanes of the virtual one. */
  lemma SameLanes(a: nat, b: nat, size: nat)
    requires SamePage(a, b)
    ensures a % 8 == b % 8 && (Crosses(a, size) <==> Crosses(b, size)) && FirstMask(a, size) == FirstMask(b, size)
  {
    hide MaskShifted, ByteMask;
    RemainderOf(a, 8, 512);
    RemainderOf(b, 8, 512);
  }

  /** The request of an aligned atomic is what the atomic unit expects. */
  lemma AtomicIsWellFormed(q: Saved, op: Op, pa: nat)
    requires SavedFrom(q, op) && op.isAmo && !AmoMisaligned(op.funct3, op.addr) && SamePage(pa, op.addr)
    ensures AtomicMemory.WellFormed(FirstAccess(q, pa))
  {
    hide SavedFrom, AtomicMemory.InOperand, AccessSize, ByteMask, MaskShifted;
    SamePlace(pa, op.addr);
    AtomicMask(q, op);
    var a := FirstAccess(q, pa);
    forall i | 0 <= i < 8 ensures a.wmask[i] == AtomicMemory.InOperand(a, i) {
      StrobeIsOperand(a, op.addr % 8, i);
    }
  }

  /** A page keeps the place of a byte within its word. */
  lemma SamePlace(a: nat, b: nat)
    requires SamePage(a, b)
    ensures a % 8 == b % 8 && a % 4 == b % 4 && a / 4 % 2 == b % 8 / 4
  {
    PlaceOfOffset(a);
    PlaceOfOffset(b);
    Halves(a);
  }

  lemma PlaceOfOffset(a: nat)
    ensures a % 8 == a % 4096 % 8 && a % 4 == a % 4096 % 4
  {
    RemainderOf(a, 8, 512);
    RemainderOf(a, 4, 1024);
  }

  lemma Halves(a: nat)
    ensures a / 4 % 2 == a % 8 / 4
  {
    var k, p := a / 8, a % 8;
    assert a == 8 * k + p && a / 4 == 2 * k + p / 4;
  }

  lemma AtomicMask(q: Saved, op: Op)
    requires SavedFrom(q, op) && op.isAmo
    ensures q.wmask == MaskShifted(ByteMask(AccessSize(q.funct3)), op.addr % 8) && q.isAmo && q.funct3 == op.funct3
  {
    hide AccessSize, ByteMask, MaskShifted;
  }

  lemma StrobeIsOperand(a: FlatMemory.Access, offset: nat, i: nat)
    requires (a.funct3 == 2 && offset in {0, 4}) || (a.funct3 == 3 && offset == 0)
    requires a.addr / 4 % 2 == offset / 4 && i < 8
    ensures MaskShifted(ByteMask(AccessSize(a.funct3)), offset)[i] == AtomicMemory.InOperand(a, i)
  {
  }

  /** Registers loaded when an instruction begins. */
  function Save(op: Op): Saved {
    var size := AccessSize(op.funct3);
    var crosses := !op.isAmo && Crosses(op.addr, size);
    Saved(op.isStore, op.addr, op.addr, op.rs2, DataShifted(op.rs2, op.addr % 8),
          MaskShifted(ByteMask(if crosses then 8 - op.addr % 8 else size), op.addr % 8),
          op.isAmo, op.amoop, op.aq, op.rl, op.funct3, op.addr % 8, size, crosses)
  }

  /** The checks before any access: none, or the fault they raise. */
  function Refused(normal: nat -> bool, op: Op, c: In): Option<(Cause, nat)> {
    if op.isAmo && AmoMisaligned(op.funct3, op.addr) then Some((StoreMisaligned, op.addr))
    else if !c.needTranslate && Misaligned(op.funct3, op.addr) && !normal(op.addr) then
      Some((if op.isLoad then LoadMisaligned else StoreMisaligned, op.addr))
    else if !c.needTranslate && !c.pmpAllow then
      Some((if NeedsWrite(op.isStore, op.isAmo, op.amoop) then StoreAccess else LoadAccess, op.addr))
    else if c.needTranslate && op.addr % 4096 + AccessSize(op.funct3) > 4096 then
      Some((if op.isLoad then LoadMisaligned else StoreMisaligned, op.addr))
    else None
  }

  /** The fault a translated access raises. */
  function RefusedLater(normal: nat -> bool, q: Saved, c: In): Option<(Cause, nat)> {
    if c.trFault then Some((Translated(c.trCause), c.trValue))
    else if Misaligned(q.funct3, q.vaddr) && !normal(c.trPa) then
      Some((if q.wen then StoreMisaligned else LoadMisaligned, q.vaddr))
    else if !c.pmpAllow then
      Some((if NeedsWrite(q.wen, q.isAmo, q.amoop) then StoreAccess else LoadAccess, q.vaddr))
    else None
  }

  /** The refusal decided in a cycle, if there is one: when an instruction begins, or when its translation is known. */
  function Refusal(normal: nat -> bool, r: Regs, c: In): Option<(Cause, nat)> {
    if r.state == Init && c.valid && c.isNew && c.op.Some? then Refused(normal, c.op.value, c)
    else if r.state == TranslateWait && c.trRspValid then RefusedLater(normal, r.q, c)
    else None
  }

  /** Where a taken first access leads. */
  function AfterFirst(q: Saved): State {
    if q.wen && !q.isAmo then if q.crosses then SplitAccessWaitReady else Init else AccessWaitValid
  }

  function NextOwner(r: Regs, c: In, q: Option<FlatMemory.Access>): Owner {
    if q.Some? && c.ready then
      if c.valid && c.trMemValid then Translation
      else if !q.value.wen || q.value.isAmo then Data
      else if c.rvalid then NoOwner else r.owner
    else if c.rvalid then NoOwner
    else r.owner
  }

  function NextJob(r: Regs, job: Job, c: In, r': Regs, mem: Mem): Job {
    if r'.state == Init then NoJob
    else if r.state == Init && c.op.Some? then Job(c.op.value, mem)
    else job
  }

  /** An edge keeps the meaning of the registers, and whatever finishes has done what it should. */
  ghost predicate EdgeOk(normal: nat -> bool, r: Regs, job: Job, p: Port, c: In, atomic: Effect, r': Regs)
    requires Lanes(r.q) && r.q.offset < 8
  {
    var p' := PortNext(p, c.valid && c.trMemValid, Drives(normal, r, c), c, atomic);
    var job' := NextJob(r, job, c, r', p.mem);
    && UnitOk(normal, r', job', p')
    && (r.state != Init && r.state != Fault && r'.state == Init ==> Finished(job, Target(r, c), p.flight, p'.mem, Rdata(normal, r, c)))
    && (r.state != Init && r.state != Fault && !Stall(normal, r, c) ==> r'.state == Init)
    && (r.state != Init && r'.state == Init ==> !Stall(normal, r, c) || (job.op.isStore && !job.op.isAmo))
    && (r'.state == Fault ==> p'.mem == job'.mem)
    && (r'.state == Fault <==> Refusal(normal, r, c).Some?)
    && (r'.state == Fault ==> Refusal(normal, r, c) == Some(r'.fault))
    && (0 < StepsLeft(r.state) && Served(r, c) ==> StepsLeft(r'.state) < StepsLeft(r.state))
    && (r.state == AccessWaitReady || r.state == SplitAccessWaitReady ==> Drives(normal, r, c).Some? || FastDone(normal, r, c))
    && (r.state == Fault ==> r'.state == Init) && (r.state == Init ==> (r'.state != Init <==> c.valid && c.isNew && c.op.Some?))
  }

  lemma FirstStores(q: Saved, op: Op, m: Mem, pa: nat)
    requires SavedFrom(q, op) && SamePage(pa, op.addr) && !op.isAmo
    ensures m[pa / 8 := Merge(m[pa / 8], q.wdata, q.wmask)] == FirstWrite(m, pa, q.size, q.rs2)
    ensures !q.crosses ==> FirstWrite(m, pa, q.size, q.rs2) == Stored(m, pa, AccessSize(op.funct3), op.rs2)
  {
    hide FirstWrite, Stored, FirstMask, AccessSize;
    SameLanes(pa, op.addr, q.size);
    StoreIsExact(m, pa, q.size, q.rs2);
    FirstWriteIs(m, pa, q.size, q.rs2);
    AccessSizes(op.funct3);
  }

  lemma FirstWriteIs(m: Mem, pa: nat, size: nat, data: Word)
    ensures FirstWrite(m, pa, size, data) == m[pa / 8 := Merge(m[pa / 8], DataShifted(data, pa % 8), FirstMask(pa, size))]
  {
  }

  lemma AccessSizes(funct3: nat)
    ensures 0 < AccessSize(funct3) <= 8
  {
  }

  lemma SecondStores(q: Saved, op: Op, m: Mem)
    requires SavedFrom(q, op) && SamePage(q.paddr, op.addr) && !op.isAmo && q.wen && q.crosses && Lanes(q)
    ensures var a, m1 := SecondAccess(q), FirstWrite(m, q.paddr, q.size, q.rs2);
      && a.addr / 8 == q.paddr / 8 + 1
      && m1[a.addr / 8 := Merge(m1[a.addr / 8], a.wdata, a.wmask)] == Stored(m, q.paddr, AccessSize(op.funct3), op.rs2)
  {
    hide FirstWrite, Stored, FirstMask, AccessSize, SecondData, SecondMask;
    SameLanes(q.paddr, op.addr, q.size);
    AccessSizes(op.funct3);
    StoreIsExact(m, q.paddr, q.size, q.rs2);
    assert q.paddr / 8 * 8 + 8 == 8 * (q.paddr / 8 + 1);
  }

  lemma Loads(q: Saved, op: Op, m: Mem, pa: nat)
    requires SavedFrom(q, op) && SamePage(pa, op.addr)
    ensures q.crosses ==> ExtractLoadData(m[pa / 8 + 1], m[pa / 8], q.offset, q.funct3) == LoadValue(m, pa, op.funct3)
    ensures !q.crosses && !op.isAmo ==> ExtractLoadData(ZERO_WORD, m[pa / 8], q.offset, q.funct3) == LoadValue(m, pa, op.funct3)
  {
    hide ExtractLoadData, LoadValue, FirstMask;
    SameLanes(pa, op.addr, q.size);
    LoadIsExact(m, pa, op.funct3);
  }

  lemma InitKeeps(normal: nat -> bool, r: Regs, job: Job, p: Port, c: In, atomic: Effect, r': Regs)
    requires UnitOk(normal, r, job, p) && UseOk(r, c, p) && PortOk(normal, p, r, c) && r.state == Init
    requires if c.valid && c.isNew && c.op.Some? then
               var op := c.op.value;
               var no := Refused(normal, op, c);
               && r'.q == Save(op) && r'.owner == NextOwner(r, c, Drives(normal, r, c))
               && (no.Some? ==> r'.fault == no.value)
               && r'.state == if no.Some? then Fault else if c.needTranslate then TranslateWait else AccessWaitReady
             else r' == r.(owner := NextOwner(r, c, Drives(normal, r, c)))
    ensures EdgeOk(normal, r, job, p, c, atomic, r')
  {
    hide Merge, ExtractLoadData, Stored, LoadValue, AccessSize;
    if c.op.Some? { SavedIs(c.op.value); }
  }

  lemma SavedIs(op: Op)
    ensures SavedFrom(Save(op), op) && Lanes(Save(op)) && Save(op).offset < 8
  {
    AccessSizes(op.funct3);
  }

  lemma TranslateWaitKeeps(normal: nat -> bool, r: Regs, job: Job, p: Port, c: In, atomic: Effect, r': Regs)
    requires UnitOk(normal, r, job, p) && UseOk(r, c, p) && PortOk(normal, p, r, c) && r.state == TranslateWait
    requires
      var r1 := r.(owner := NextOwner(r, c, Drives(normal, r, c)));
      if !c.trRspValid then r' == r1
      else RefusedLater(normal, r.q, c).Some? && r' == r1.(state := Fault, fault := RefusedLater(normal, r.q, c).value)
    ensures EdgeOk(normal, r, job, p, c, atomic, r')
  {
    hide Merge, ExtractLoadData, Stored, LoadValue, FirstWrite, FirstMask, AccessSize, InPage;
  }

  lemma TranslatedKeeps(normal: nat -> bool, r: Regs, job: Job, p: Port, c: In, atomic: Effect, r': Regs)
    requires UnitOk(normal, r, job, p) && UseOk(r, c, p) && PortOk(normal, p, r, c) && r.state == TranslateWait
    requires c.trRspValid && RefusedLater(normal, r.q, c).None?
    requires r' == r.(owner := NextOwner(r, c, Drives(normal, r, c)), q := r.q.(paddr := c.trPa),
                      state := if FastDone(normal, r, c) then Init else if c.ready then AfterFirst(r.q) else AccessWaitReady)
    ensures EdgeOk(normal, r, job, p, c, atomic, r')
  {
    hide UnitOk, UseOk, PortOk, EdgeOk, RefusedLater, NextOwner, FastDone, Drives, AfterFirst;
    if r.q.isAmo {
      AtomicTranslatedKeeps(normal, r, job, p, c, atomic, r');
    } else {
      PlainTranslatedKeeps(normal, r, job, p, c, atomic, r');
    }
  }

  lemma PlainTranslatedKeeps(normal: nat -> bool, r: Regs, job: Job, p: Port, c: In, atomic: Effect, r': Regs)
    requires UnitOk(normal, r, job, p) && UseOk(r, c, p) && PortOk(normal, p, r, c) && r.state == TranslateWait
    requires c.trRspValid && RefusedLater(normal, r.q, c).None?
    requires r' == r.(owner := NextOwner(r, c, Drives(normal, r, c)), q := r.q.(paddr := c.trPa),
                      state := if FastDone(normal, r, c) then Init else if c.ready then AfterFirst(r.q) else AccessWaitReady)
    requires !r.q.isAmo
    ensures EdgeOk(normal, r, job, p, c, atomic, r')
  {
    hide Merge, ExtractLoadData, Stored, LoadValue, FirstWrite, FirstMask, AccessSize, InPage;
    Loads(r.q, job.op, job.mem, c.trPa);
    FirstStores(r.q, job.op, job.mem, c.trPa);
  }

  lemma AtomicTranslatedKeeps(normal: nat -> bool, r: Regs, job: Job, p: Port, c: In, atomic: Effect, r': Regs)
    requires UnitOk(normal, r, job, p) && UseOk(r, c, p) && PortOk(normal, p, r, c) && r.state == TranslateWait
    requires c.trRspValid && RefusedLater(normal, r.q, c).None?
    requires r' == r.(owner := NextOwner(r, c, Drives(normal, r, c)), q := r.q.(paddr := c.trPa),
                      state := if FastDone(normal, r, c) then Init else if c.ready then AfterFirst(r.q) else AccessWaitReady)
    requires r.q.isAmo
    ensures EdgeOk(normal, r, job, p, c, atomic, r')
  {
    hide Merge, ExtractLoadData, Stored, LoadValue, FirstWrite, FirstMask, AccessSize, InPage;
    Loads(r.q, job.op, job.mem, c.trPa);
  }

  lemma AccessKeeps(normal: nat -> bool, r: Regs, job: Job, p: Port, c: In, atomic: Effect, r': Regs)
    requires UnitOk(normal, r, job, p) && UseOk(r, c, p) && PortOk(normal, p, r, c) && r.state == AccessWaitReady
    requires
      var r1 := r.(owner := NextOwner(r, c, Drives(normal, r, c)));
      r' == if FastDone(normal, r, c) then r1.(state := Init) else if c.ready then r1.(state := AfterFirst(r.q)) else r1
    ensures EdgeOk(normal, r, job, p, c, atomic, r')
  {
    hide Merge, ExtractLoadData, Stored, LoadValue, FirstWrite, FirstMask, AccessSize;
    Loads(r.q, job.op, job.mem, r.q.paddr);
    if !job.op.isAmo { FirstStores(r.q, job.op, job.mem, r.q.paddr); }
  }

  lemma ResponseKeeps(normal: nat -> bool, r: Regs, job: Job, p: Port, c: In, atomic: Effect, r': Regs)
    requires UnitOk(normal, r, job, p) && UseOk(r, c, p) && PortOk(normal, p, r, c) && r.state == AccessWaitValid
    requires
      var r1 := r.(owner := NextOwner(r, c, Drives(normal, r, c)));
      r' == if !DataRvalid(r, c) then r1
            else if r.q.crosses then r1.(firstRdata := c.rdata, state := SplitAccessWaitReady) else r1.(state := Init)
    ensures EdgeOk(normal, r, job, p, c, atomic, r')
  {
    hide Merge, ExtractLoadData, Stored, LoadValue, FirstWrite, FirstMask, AccessSize;
    Loads(r.q, job.op, job.mem, r.q.paddr);
  }

  lemma SecondWord(q: Saved)
    requires Lanes(q)
    ensures SecondAccess(q).addr / 8 == q.paddr / 8 + 1 && SecondAccess(q).wen == q.wen && !SecondAccess(q).isAmo
  {
    hide SecondData, SecondMask;
    assert q.paddr / 8 * 8 + 8 == 8 * (q.paddr / 8 + 1);
  }

  lemma SplitStoreKeeps(normal: nat -> bool, r: Regs, job: Job, p: Port, c: In, atomic: Effect, r': Regs)
    requires UnitOk(normal, r, job, p) && UseOk(r, c, p) && PortOk(normal, p, r, c) && r.state == SplitAccessWaitReady && r.q.wen
    requires r' == (if c.ready then r.(state := Init) else r).(owner := NextOwner(r, c, Drives(normal, r, c)))
    ensures EdgeOk(normal, r, job, p, c, atomic, r')
  {
    hide Merge, ExtractLoadData, Stored, LoadValue, FirstWrite, FirstMask, AccessSize, SecondAccess, DataShifted,
      Crosses, SamePage;
    SecondStores(r.q, job.op, job.mem);
    SecondWord(r.q);
  }

  lemma SplitLoadKeeps(normal: nat -> bool, r: Regs, job: Job, p: Port, c: In, atomic: Effect, r': Regs)
    requires UnitOk(normal, r, job, p) && UseOk(r, c, p) && PortOk(normal, p, r, c) && r.state == SplitAccessWaitReady && !r.q.wen
    requires r' == (if c.ready then r.(state := SplitAccessWaitValid) else r).(owner := NextOwner(r, c, Drives(normal, r, c)))
    ensures EdgeOk(normal, r, job, p, c, atomic, r')
  {
    hide Merge, ExtractLoadData, Stored, LoadValue, FirstWrite, FirstMask, AccessSize, SecondAccess, DataShifted,
      Crosses, SamePage;
    SecondWord(r.q);
  }

  lemma SplitResponseKeeps(normal: nat -> bool, r: Regs, job: Job, p: Port, c: In, atomic: Effect, r': Regs)
    requires UnitOk(normal, r, job, p) && UseOk(r, c, p) && PortOk(normal, p, r, c) && r.state == SplitAccessWaitValid
    requires
      var r1 := r.(owner := NextOwner(r, c, Drives(normal, r, c)));
      r' == if !DataRvalid(r, c) then r1
            else r1.(loadResult := ExtractLoadData(c.rdata, r.firstRdata, r.q.offset, r.q.funct3), state := Init)
    ensures EdgeOk(normal, r, job, p, c, atomic, r')
  {
    hide Merge, ExtractLoadData, Stored, LoadValue, FirstWrite, FirstMask, AccessSize;
    Loads(r.q, job.op, job.mem, r.q.paddr);
  }

  lemma FaultKeeps(normal: nat -> bool, r: Regs, job: Job, p: Port, c: In, atomic: Effect, r': Regs)
    requires UnitOk(normal, r, job, p) && UseOk(r, c, p) && PortOk(normal, p, r, c) && r.state == Fault
    requires r' == r.(owner := NextOwner(r, c, Drives(normal, r, c)), state := Init)
    ensures EdgeOk(normal, r, job, p, c, atomic, r')
  {
    hide Merge, ExtractLoadData, Stored, LoadValue, FirstWrite, FirstMask, AccessSize;
  }

  class MemUnit {
    /** Is this physical address ordinary memory? */
    const normal: nat -> bool
    var r: Regs
    ghost var job: Job
    ghost var p: Port

    ghost predicate Valid()
      reads this
    {
      UnitOk(normal, r, job, p)
    }

    constructor (normal: nat -> bool, ghost mem: Mem)
      ensures Valid() && job == NoJob && p == Port(mem, Quiet)
    {
      this.normal := normal;
      r := Regs(Init, NoOwner, Save(Op(0, ZERO_WORD, false, false, false, 0, LR, false, false)), ZERO_WORD, ZERO_WORD, (LoadMisaligned, 0));
      job, p := NoJob, Port(mem, Quiet);
      new;
      SavedIs(Op(0, ZERO_WORD, false, false, false, 0, LR, false, false));
    }

    /** One clock edge. An instruction that is not refused ends by having stored or loaded exactly its bytes; a load
        delivers them in the cycle in which the unit stops stalling; a refused one leaves memory alone. */
    method Clock(c: In, ghost atomic: Effect) returns (out: Out)
      requires Valid() && UseOk(r, c, p) && PortOk(normal, p, r, c)
      modifies this
      ensures Valid() && r.state != DiscardWaitValid
      ensures p == PortNext(old(p), c.valid && c.trMemValid, out.bus, c, atomic)
      ensures old(job).NoJob? ==> (job.Job? <==> c.valid && c.isNew && c.op.Some?)
      ensures old(job).NoJob? && job.Job? ==> c.op == Some(job.op) && job.mem == old(p.mem)
      ensures old(job).NoJob? ==> (out.stall <==> job.Job?)
      // One translation is enough: a translated access stays in its page.
      ensures r.state == TranslateWait ==> InPage(job.op)
      ensures old(job).Job? && job.Job? ==> job == old(job) && (old(r.state) != Fault ==> out.stall)
      ensures old(job).Job? && job.NoJob? ==>
        if old(r.state) == Fault then out.expt.Some? && !out.stall && old(p.mem) == old(job.mem)
        else
          && Finished(old(job), Target(old(r), c), old(p.flight), p.mem, out.rdata)
          && (!out.stall || (old(job).op.isStore && !old(job).op.isAmo))
      ensures r.state == Fault ==> job.Job? && p.mem == job.mem
      // It is refused exactly for the first check that fails, and reports that one.
      ensures r.state == Fault <==> Refusal(normal, old(r), c).Some?
      ensures r.state == Fault ==> Refusal(normal, old(r), c) == Some(r.fault)
      ensures out.expt == if old(r.state) == Fault then Some(old(r.fault)) else None
      // The memory side is asked for the atomic the instruction names.
      ensures out.bus.Some? && !c.trMemValid && old(job).Job? && old(job).op.isAmo ==>
        out.bus.value == AtomicRequest(old(job).op, Target(old(r), c))
      // A misaligned access goes to ordinary memory only.
      ensures out.bus.Some? && !c.trMemValid && Misaligned(old(r.q.funct3), old(r.q.vaddr)) ==> normal(Target(old(r), c))
      // The access moves on whenever the translator or the bus serves it, and asks the bus until it does.
      ensures 0 < StepsLeft(old(r.state)) && Served(old(r), c) ==> StepsLeft(r.state) < StepsLeft(old(r.state))
      ensures old(r.state) in {AccessWaitReady, SplitAccessWaitReady} ==> out.bus.Some? || FastDone(normal, old(r), c)
    {
      hide UnitOk, UseOk, PortOk, EdgeOk, Drives, Rdata, Stall, FastAsks, Finished, PortNext;
      BeforeEdge(normal, r, job, p, c);
      ghost var was := r;
      out := Out(Stall(normal, r, c), Rdata(normal, r, c),
                 if FastDone(normal, r, c) && r.state == TranslateWait then c.trPa else r.q.paddr,
                 if r.state == Fault then Some(r.fault) else None, Drives(normal, r, c), FastAsks(normal, r, c));
      Advance(c, atomic);
      AfterEdge(normal, was, job, p, c, atomic, r);
      job := NextJob(was, job, c, r, p.mem);
      p := PortNext(p, c.valid && c.trMemValid, out.bus, c, atomic);
    }

    /** The access FSM over one edge. */
    method Advance(c: In, ghost atomic: Effect)
      requires Valid() && UseOk(r, c, p) && PortOk(normal, p, r, c)
      modifies `r
      ensures EdgeOk(normal, old(r), job, p, c, atomic, r)
    {
      hide UnitOk, UseOk, PortOk, EdgeOk, Drives, NextOwner, SavedFrom, RefusedLater, Refused, AfterFirst, FastDone,
        Save, ExtractLoadData, DataRvalid;
      ghost var was := r;
      BeforeEdge(normal, r, job, p, c);
      var dataRvalid := DataRvalid(r, c);
      var outstanding := (r.owner != NoOwner && !c.rvalid) || (Drives(normal, r, c).Some? && c.ready);
      var fast := FastDone(normal, r, c);
      r := r.(owner := NextOwner(r, c, Drives(normal, r, c)));
      if !c.valid {
        r := r.(state := if outstanding then DiscardWaitValid else Init);
      } else {
        match r.state
        case Init =>
          if c.isNew && c.op.Some? {
            var op := c.op.value;
            var no := Refused(normal, op, c);
            if no.Some? {
              r := r.(q := Save(op), fault := no.value, state := Fault);
            } else {
              r := r.(q := Save(op), state := if c.needTranslate then TranslateWait else AccessWaitReady);
            }
          }
        case TranslateWait =>
          if c.trRspValid {
            var no := RefusedLater(normal, r.q, c);
            if no.Some? {
              r := r.(fault := no.value, state := Fault);
            } else {
              r := r.(q := r.q.(paddr := c.trPa), state := if fast then Init else if c.ready then AfterFirst(r.q) else AccessWaitReady);
            }
          }
        case AccessWaitReady =>
          if fast { r := r.(state := Init); }
          else if c.ready { r := r.(state := AfterFirst(r.q)); }
        case AccessWaitValid =>
          if dataRvalid {
            if r.q.crosses {
              r := r.(firstRdata := c.rdata, state := SplitAccessWaitReady);
            } else {
              r := r.(state := Init);
            }
          }
        case SplitAccessWaitReady =>
          if c.ready { r := r.(state := if r.q.wen then Init else SplitAccessWaitValid); }
        case SplitAccessWaitValid =>
          if dataRvalid {
            r := r.(loadResult := ExtractLoadData(c.rdata, r.firstRdata, r.q.offset, r.q.funct3), state := Init);
          }
        case DiscardWaitValid =>
          // No instruction leaves MEM with an answer open, so there is never one to discard.
          assert false;
        case Fault =>
          r := r.(state := Init);
      }
      match was.state
      case Init => InitKeeps(normal, was, job, p, c, atomic, r);
      case TranslateWait =>
        if c.trRspValid && RefusedLater(normal, was.q, c).None? { TranslatedKeeps(normal, was, job, p, c, atomic, r); }
        else { TranslateWaitKeeps(normal, was, job, p, c, atomic, r); }
      case AccessWaitReady => AccessKeeps(normal, was, job, p, c, atomic, r);
      case AccessWaitValid => ResponseKeeps(normal, was, job, p, c, atomic, r);
      case SplitAccessWaitReady =>
        if was.q.wen { SplitStoreKeeps(normal, was, job, p, c, atomic, r); } else { SplitLoadKeeps(normal, was, job, p, c, atomic, r); }
      case SplitAccessWaitValid => SplitResponseKeeps(normal, was, job, p, c, atomic, r);
      case DiscardWaitValid => assert false;
      case Fault => FaultKeeps(normal, was, job, p, c, atomic, r);
    }
  }

  lemma AfterEdge(normal: nat -> bool, r: Regs, job: Job, p: Port, c: In, atomic: Effect, r': Regs)
    requires UnitOk(normal, r, job, p) && EdgeOk(normal, r, job, p, c, atomic, r')
    ensures var p' := PortNext(p, c.valid && c.trMemValid, Drives(normal, r, c), c, atomic);
      var job' := NextJob(r, job, c, r', p.mem);
      && UnitOk(normal, r', job', p')
      && (job.Job? && job'.NoJob? && r.state != Fault ==> Finished(job, Target(r, c), p.flight, p'.mem, Rdata(normal, r, c)))
      && (job.Job? && r.state != Fault && !Stall(normal, r, c) ==> job' == NoJob)
      && (job.Job? && job' == NoJob ==> !Stall(normal, r, c) || (job.op.isStore && !job.op.isAmo))
      && (job.Job? && job'.Job? ==> job' == job)
      && (r.state == Init <==> job == NoJob) && (r.state == Fault ==> job.Job? && p.mem == job.mem && job' == NoJob)
      && (r'.state == Fault ==> job'.Job? && p'.mem == job'.mem)
      && (r'.state == Fault <==> Refusal(normal, r, c).Some?) && (r'.state == Fault ==> Refusal(normal, r, c) == Some(r'.fault))
      && (r'.state == TranslateWait ==> job'.Job? && InPage(job'.op))
      && (0 < StepsLeft(r.state) && Served(r, c) ==> StepsLeft(r'.state) < StepsLeft(r.state))
      && (r.state == AccessWaitReady || r.state == SplitAccessWaitReady ==> Drives(normal, r, c).Some? || FastDone(normal, r, c))
      && r'.state != DiscardWaitValid && (r.state == Init ==> (r'.state != Init <==> c.valid && c.isNew && c.op.Some?))
  {
    hide Drives, Rdata, Finished, PortNext, Stall;
  }

  lemma BeforeEdge(normal: nat -> bool, r: Regs, job: Job, p: Port, c: In)
    requires UnitOk(normal, r, job, p) && UseOk(r, c, p) && PortOk(normal, p, r, c)
    ensures r.state != DiscardWaitValid && r.q.offset < 8 && Lanes(r.q)
    ensures !c.valid ==> (r.state == Init || r.state == Fault) && r.owner == NoOwner && Drives(normal, r, c).None?
    ensures r.state == Init ==> (Stall(normal, r, c) <==> c.valid && c.isNew && c.op.Some?)
    ensures r.state == Fault ==> !Stall(normal, r, c)
    ensures Drives(normal, r, c).Some? && !c.trMemValid && job.Job? && job.op.isAmo ==>
      Drives(normal, r, c) == Some(AtomicRequest(job.op, Target(r, c)))
    ensures Drives(normal, r, c).Some? && !c.trMemValid && Misaligned(r.q.funct3, r.q.vaddr) ==> normal(Target(r, c))
  {
  }
}
