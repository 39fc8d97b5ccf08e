/** The back end of the pipeline: EX, MEM and WB between width-1 queues, with forwarding, stalls and flushes. */
module Backend {
  import opened Eei
  import opened RV64M
  import opened BackendSpec
  import MDU = MulDivUnit

  /** What EX hands to MEM, and MEM to WB. */
  datatype MemEntry = MemEntry(inst: Inst, a: Word64, b: Word64, alu: Word64)

  datatype WbEntry = WbEntry(inst: Inst, alu: Word64, mem: Word64, csr: Word64, raiseTrap: bool)

  const NOTHING := MemEntry(Inst(0, 0, 0, 0, 0, RB, false, false, false, false, false, false, false, false, 0, false, false, false, false), 0, 0, 0)

  /** One cycle's inputs: the decoder, the memory and CSR units, the D-cache, and an early redirect found in EX. */
  datatype In = In(
    idValid: bool, id: Inst, stall: bool, memRdata: Word64, csrRdata: Word64,
    raiseTrap: bool, trapReturn: bool, dcacheFlushBusy: bool, redirect: bool)

  /** The width-1 queue: a flush wins over a write, a write over a read. */
  function Latched<T>(q: Option<T>, flush: bool, wvalid: bool, wdata: T, rready: bool): Option<T> {
    if flush then None
    else if (q.None? || rready) && wvalid then Some(wdata)
    else if rready then None
    else q
  }

  // ---- forwarding ----

  predicate MemMatch(m: Option<MemEntry>, rs: Reg) { m.Some? && WritesReg(m.value.inst) && m.value.inst.rd == rs }

  predicate MemForwards(m: Option<MemEntry>, raiseTrap: bool) {
    && m.Some? && m.value.inst.rwbEn && !m.value.inst.expt && !raiseTrap
    && !m.value.inst.isLoad && !m.value.inst.isAmo && !m.value.inst.isCsr
  }

  function MemForwardData(m: MemEntry): Word64 {
    if m.inst.isLui then m.inst.imm
    else if m.inst.isJump then (m.inst.pc + (if m.inst.isRvc then 2 else 4)) % P64
    else m.alu
  }

  predicate WbMatch(w: Option<WbEntry>, rs: Reg) { w.Some? && WritesReg(w.value.inst) && w.value.inst.rd == rs }

  predicate WbForwards(w: Option<WbEntry>) { w.Some? && w.value.inst.rwbEn && !w.value.raiseTrap }

  function WbData(w: WbEntry): Word64 { Value(w.inst, w.alu, w.mem, w.csr) }

  predicate RsHazard(rs: Reg, m: Option<MemEntry>, w: Option<WbEntry>, raiseTrap: bool) {
    || (MemMatch(m, rs) && !(MemMatch(m, rs) && MemForwards(m, raiseTrap)))
    || (WbMatch(w, rs) && !(WbMatch(w, rs) && WbForwards(w)))
  }

  function Forwarded(regfile: Regs, rs: Reg, m: Option<MemEntry>, w: Option<WbEntry>, raiseTrap: bool): Word64 {
    if MemMatch(m, rs) && MemForwards(m, raiseTrap) then MemForwardData(m.value)
    else if WbMatch(w, rs) && WbForwards(w) then WbData(w.value)
    else RegAt(regfile, rs)
  }

  /** The pipeline registers: the three queues and the flags of the multiplication or division in EX. */
  datatype Pipe = Pipe(exq: Option<Inst>, memq: Option<MemEntry>, wbq: Option<WbEntry>, requested: bool, rvalided: bool) {
    predicate MemHazard(c: In) {
      memq.Some? && (c.raiseTrap || memq.value.inst.flushes || (memq.value.inst.translation && !c.dcacheFlushBusy))
    }

    predicate MemReady(c: In) { !c.stall && !(memq.Some? && memq.value.inst.translation && c.dcacheFlushBusy) }

    predicate Retires(c: In) { memq.Some? && MemReady(c) }

    predicate DataHazard(c: In) {
      exq.Some? && (RsHazard(exq.value.rs1, memq, wbq, c.raiseTrap) || RsHazard(exq.value.rs2, memq, wbq, c.raiseTrap))
    }

    predicate Asks(c: In) { exq.Some? && exq.value.isMuldiv && !DataHazard(c) && !requested }

    predicate MuldivStall(rvalid: bool) { exq.Some? && exq.value.isMuldiv && (!requested || (!rvalid && !rvalided)) }

    predicate ExReady(c: In, rvalid: bool) { (memq.None? || MemReady(c)) && !DataHazard(c) && !MuldivStall(rvalid) }

    predicate Leaves(c: In, rvalid: bool) { exq.Some? && ExReady(c, rvalid) }

    predicate ControlHazard(c: In, rvalid: bool) { MemHazard(c) || (Leaves(c, rvalid) && c.redirect) }

    predicate Accepts(c: In, rvalid: bool) { c.idValid && (exq.None? || ExReady(c, rvalid)) && !ControlHazard(c, rvalid) }

    /** What EX offers to MEM. */
    function Offer(f: Alu, regfile: Regs, c: In, muldiv: Word64): MemEntry
      requires exq.Some?
    {
      var i := exq.value;
      var a := Forwarded(regfile, i.rs1, memq, wbq, c.raiseTrap);
      var b := Forwarded(regfile, i.rs2, memq, wbq, c.raiseTrap);
      MemEntry(i, a, b, if i.isMuldiv then muldiv else f(i, Op1(i, a), Op2(i, b)))
    }
  }

  /** The past: initial registers, instructions out of MEM, all accepted and not flushed since; whether the
      multiply/divide flags belong to a flushed instruction, and whose answer the entry in MEM took. */
  datatype History = History(regs0: Regs, done: seq<Retired>, kept: seq<Inst>, stale: bool, memTook: Took) {
    function Arch(): Regs { After(regs0, done) }
  }

  // ---- what the registers mean ----

  /** The register file is one write behind the trace while WB is occupied. */
  predicate RegfileOk(regs0: Regs, done: seq<Retired>, regfile: Regs, w: Option<WbEntry>) {
    match w
    case None => regfile == After(regs0, done)
    case Some(e) =>
      && done != [] && regfile == After(regs0, Front(done))
      && var r := Last(done);
         e == WbEntry(r.inst, r.alu, r.mem, r.csr, r.trapped)
  }

  /** The value a source register will have when everything older has retired, as known now. */
  predicate OperandIs(arch: Regs, m: Option<MemEntry>, rs: Reg, v: Word64) {
    if MemMatch(m, rs) then
      !m.value.inst.isLoad && !m.value.inst.isAmo && !m.value.inst.isCsr && v == MemForwardData(m.value)
    else v == RegAt(arch, rs)
  }

  predicate MemOk(f: Alu, arch: Regs, m: Option<MemEntry>, took: Took) {
    m.Some? ==>
      && m.value.a == RegAt(arch, m.value.inst.rs1) && m.value.b == RegAt(arch, m.value.inst.rs2)
      && RightAlu(f, m.value.inst, m.value.a, m.value.b, m.value.alu, took)
  }

  /** The multiply/divide unit works for the instruction in EX unless the flags outlived a flush. */
  predicate ExOk(arch: Regs, m: Option<MemEntry>, e: Option<Inst>, requested: bool, rvalided: bool, stale: bool,
                 state: MDU.State, op: MDU.Op, result: Word64)
  {
    && (!requested ==> !rvalided && !stale)
    && (requested ==> if rvalided then state == MDU.Idle && MDU.Answered(op, result) else state != MDU.Idle)
    && (e.Some? && e.value.isMuldiv ==> e.value.itype == RB && e.value.funct3 < 8)
    && (requested && !stale ==>
          && e.Some? && e.value.isMuldiv && op.funct3 == e.value.funct3 && op.op32 == e.value.op32
          && OperandIs(arch, m, e.value.rs1, op.op1) && OperandIs(arch, m, e.value.rs2, op.op2))
  }

  function InstOf(q: Option<MemEntry>): seq<Inst> { if q.Some? then [q.value.inst] else [] }

  function InstIn(q: Option<Inst>): seq<Inst> { if q.Some? then [q.value] else [] }

  function InstsOf(trace: seq<Retired>): (s: seq<Inst>)
    ensures |s| == |trace|
  {
    seq(|trace|, i requires 0 <= i < |trace| => trace[i].inst)
  }

  /** All instructions accounted for, oldest first: out of MEM, in MEM, in EX. */
  function Queued(done: seq<Retired>, m: Option<MemEntry>, e: Option<Inst>): seq<Inst> {
    InstsOf(done) + InstOf(m) + InstIn(e)
  }

  /** What stays of the accepted instructions: a hazard in MEM drops all beyond the first n, then one may come. */
  function KeptNext(kept: seq<Inst>, n: nat, hazard: bool, accepts: bool, id: Inst): seq<Inst> {
    (if hazard && n <= |kept| then kept[..n] else kept) + if accepts then [id] else []
  }

  // ---- the key steps ----

  /** Without a hazard, forwarding finds the operand. */
  lemma ForwardingFinds(regs0: Regs, done: seq<Retired>, regfile: Regs, m: Option<MemEntry>, w: Option<WbEntry>,
                        raiseTrap: bool, rs: Reg)
    requires RegfileOk(regs0, done, regfile, w) && !RsHazard(rs, m, w, raiseTrap)
    ensures OperandIs(After(regs0, done), m, rs, Forwarded(regfile, rs, m, w, raiseTrap))
  {
    hide MemForwardData, Value;
  }

  /** The entry in MEM retires with the value it forwarded. */
  function RetiredFrom(m: MemEntry, c: In, took: Took): Retired {
    Retired(m.inst, m.a, m.b, m.alu, c.memRdata, c.csrRdata, c.raiseTrap && !c.trapReturn, took)
  }

  lemma OperandStays(arch: Regs, m: MemEntry, c: In, took: Took, rs: Reg, v: Word64)
    requires OperandIs(arch, Some(m), rs, v) && !c.raiseTrap
    ensures v == RegAt(Apply(arch, RetiredFrom(m, c, took)), rs)
  {
  }

  lemma MemRetires(f: Alu, regs0: Regs, done: seq<Retired>, m: MemEntry, c: In, took: Took)
    requires Sequential(f, regs0, done) && MemOk(f, After(regs0, done), Some(m), took)
    ensures Sequential(f, regs0, done + [RetiredFrom(m, c, took)])
    ensures After(regs0, done + [RetiredFrom(m, c, took)]) == Apply(After(regs0, done), RetiredFrom(m, c, took))
  {
    hide RightAlu, Apply;
    SequentialSnoc(f, regs0, done, RetiredFrom(m, c, took));
    AfterSnoc(regs0, done, RetiredFrom(m, c, took));
  }

  /** WB writes what the youngest trace entry says. */
  lemma WbWrites(regs0: Regs, done: seq<Retired>, regfile: Regs, w: WbEntry)
    requires RegfileOk(regs0, done, regfile, Some(w))
    ensures After(regs0, done) ==
      if WritesReg(w.inst) && !w.raiseTrap then regfile[w.inst.rd := WbData(w)] else regfile
  {
    hide Value;
  }

  /** The memory queue over one edge: fed from EX, drained into WB, emptied by a hazard found in MEM. */
  lemma MemStep(f: Alu, arch: Regs, m: Option<MemEntry>, c: In, memTook: Took, ready: bool, hazard: bool,
                leaves: bool, offer: MemEntry, offerTook: Took, arch': Regs)
    requires MemOk(f, arch, m, memTook) && (m.Some? && c.raiseTrap ==> hazard)
    requires leaves ==>
      && (m.None? || ready)
      && OperandIs(arch, m, offer.inst.rs1, offer.a) && OperandIs(arch, m, offer.inst.rs2, offer.b)
      && RightAlu(f, offer.inst, offer.a, offer.b, offer.alu, offerTook)
    requires arch' == if m.Some? && ready then Apply(arch, RetiredFrom(m.value, c, memTook)) else arch
    ensures MemOk(f, arch', Latched(m, hazard, leaves, offer, ready), if leaves then offerTook else memTook)
  {
    hide RightAlu, Apply, OperandIs;
    if leaves && !hazard {
      if m.Some? {
        OperandStays(arch, m.value, c, memTook, offer.inst.rs1, offer.a);
        OperandStays(arch, m.value, c, memTook, offer.inst.rs2, offer.b);
      } else {
        OperandAlone(arch, offer.inst.rs1, offer.a);
        OperandAlone(arch, offer.inst.rs2, offer.b);
      }
    }
  }

  lemma OperandAlone(arch: Regs, rs: Reg, v: Word64)
    ensures OperandIs(arch, None, rs, v) <==> v == RegAt(arch, rs)
  {
  }

  /** An operand seen from EX keeps its value while the older instruction in MEM waits or retires. */
  lemma OperandWaits(arch: Regs, m: Option<MemEntry>, c: In, memTook: Took, ready: bool, rs: Reg, v: Word64, arch': Regs)
    requires OperandIs(arch, m, rs, v) && !(m.Some? && c.raiseTrap)
    requires arch' == if m.Some? && ready then Apply(arch, RetiredFrom(m.value, c, memTook)) else arch
    ensures OperandIs(arch', if ready then None else m, rs, v)
  {
    hide Apply, OperandIs;
    if m.Some? && ready {
      OperandStays(arch, m.value, c, memTook, rs, v);
      OperandAlone(arch', rs, v);
    }
    if m.None? {
      assert m == None;
    }
  }

  /** The multiply/divide flags over one edge. */
  lemma ExStep(arch: Regs, m: Option<MemEntry>, c: In, memTook: Took, ready: bool, hazard: bool, leaves: bool, arch': Regs,
               e: Option<Inst>, requested: bool, rvalided: bool, stale: bool, state: MDU.State, op: MDU.Op, result: Word64,
               accept: bool, state': MDU.State, op': MDU.Op, result': Word64,
               m': Option<MemEntry>, e': Option<Inst>)
    requires ExOk(arch, m, e, requested, rvalided, stale, state, op, result) && (m.Some? && c.raiseTrap ==> hazard)
    requires arch' == if m.Some? && ready then Apply(arch, RetiredFrom(m.value, c, memTook)) else arch
    requires state == MDU.Finish ==> MDU.Answered(op, result)
    requires accept ==>
      && !requested && state' != MDU.Idle && e.Some? && e.value.isMuldiv
      && op'.funct3 == e.value.funct3 && op'.op32 == e.value.op32
      && OperandIs(arch, m, e.value.rs1, op'.op1) && OperandIs(arch, m, e.value.rs2, op'.op2)
    requires !accept ==>
      && op' == op && (state == MDU.Idle || state == MDU.Finish ==> state' == MDU.Idle && result' == result)
      && (state' == MDU.Idle ==> state == MDU.Idle || state == MDU.Finish)
    requires e'.Some? && e' != e && e'.value.isMuldiv ==> e'.value.itype == RB && e'.value.funct3 < 8
    requires !leaves && !hazard && e.Some? ==> e' == e
    requires !leaves ==> m' == if hazard || ready then None else m
    ensures
      var requested' := !leaves && (requested || accept);
      ExOk(arch', m', e', requested', !leaves && (rvalided || (requested && state == MDU.Finish)),
           if leaves then false else if hazard then requested' else stale, state', op', result')
  {
    hide Apply, OperandIs, MDU.Answered;
    if !leaves && !hazard && !stale && (requested || accept) {
      OperandWaits(arch, m, c, memTook, ready, e.value.rs1, op'.op1, arch');
      OperandWaits(arch, m, c, memTook, ready, e.value.rs2, op'.op2, arch');
    }
  }

  /** The queue entries are the instructions accepted, oldest first; a hazard in MEM drops what has not retired. */
  lemma KeptStep(done: seq<Retired>, m: Option<MemEntry>, e: Option<Inst>, c: In, memTook: Took, ready: bool, hazard: bool,
                 leaves: bool, offer: MemEntry, accepts: bool, m': Option<MemEntry>, e': Option<Inst>, done': seq<Retired>)
    requires leaves ==> e.Some? && offer.inst == e.value && (m.None? || ready)
    requires done' == done + if m.Some? && ready then [RetiredFrom(m.value, c, memTook)] else []
    requires m' == if hazard then None else if leaves then Some(offer) else if ready then None else m
    requires e' == if accepts then Some(c.id) else if hazard || leaves then None else e
    requires accepts ==> !hazard && (e.None? || leaves)
    ensures KeptNext(Queued(done, m, e), |done'|, hazard, accepts, c.id) == Queued(done', m', e')
  {
    var kept := Queued(done, m, e);
    if m.Some? && ready {
      assert InstsOf(done') == InstsOf(done) + [m.value.inst];
    } else {
      assert done' == done;
    }
    if hazard {
      assert kept[..|done'|] == InstsOf(done');
    }
  }

  ghost predicate PipeOk(f: Alu, regfile: Regs, r: Pipe, h: History, state: MDU.State, op: MDU.Op, result: Word64) {
    && Sequential(f, h.regs0, h.done)
    && RegfileOk(h.regs0, h.done, regfile, r.wbq)
    && MemOk(f, h.Arch(), r.memq, h.memTook)
    && ExOk(h.Arch(), r.memq, r.exq, r.requested, r.rvalided, h.stale, state, op, result)
    && h.kept == Queued(h.done, r.memq, r.exq)
  }

  /** What leaves EX used the operands its elders will have left, and computed with them. */
  lemma OfferIsRight(f: Alu, regfile: Regs, r: Pipe, h: History, state: MDU.State, op: MDU.Op, result: Word64, c: In)
    requires PipeOk(f, regfile, r, h, state, op, result) && (state == MDU.Finish ==> MDU.Answered(op, result))
    requires r.Leaves(c, state == MDU.Finish)
    ensures var o := r.Offer(f, regfile, c, result);
      && o.inst == r.exq.value
      && OperandIs(h.Arch(), r.memq, o.inst.rs1, o.a) && OperandIs(h.Arch(), r.memq, o.inst.rs2, o.b)
      && RightAlu(f, o.inst, o.a, o.b, o.alu, Took(h.stale && o.inst.isMuldiv, op))
  {
    hide MDU.Answered, MemForwardData, Value, InOrder, Queued, Sequential;
    var i := r.exq.value;
    ForwardingFinds(h.regs0, h.done, regfile, r.memq, r.wbq, c.raiseTrap, i.rs1);
    ForwardingFinds(h.regs0, h.done, regfile, r.memq, r.wbq, c.raiseTrap, i.rs2);
    var o := r.Offer(f, regfile, c, result);
    assert i.isMuldiv && !h.stale ==> op == MDU.Op(i.funct3, i.op32, Op1(i, o.a), Op2(i, o.b));
  }

  /** So did what is handed to the multiply/divide unit. */
  lemma AskIsRight(f: Alu, regfile: Regs, r: Pipe, h: History, state: MDU.State, op: MDU.Op, result: Word64, c: In)
    requires PipeOk(f, regfile, r, h, state, op, result) && r.Asks(c)
    ensures r.exq.value.funct3 < 8
    ensures var o := r.Offer(f, regfile, c, result);
      OperandIs(h.Arch(), r.memq, r.exq.value.rs1, o.a) && OperandIs(h.Arch(), r.memq, r.exq.value.rs2, o.b)
  {
    hide MDU.Answered, MemForwardData, Value, InOrder, Queued, Sequential;
    ForwardingFinds(h.regs0, h.done, regfile, r.memq, r.wbq, c.raiseTrap, r.exq.value.rs1);
    ForwardingFinds(h.regs0, h.done, regfile, r.memq, r.wbq, c.raiseTrap, r.exq.value.rs2);
  }

  /** The queues over one edge. */
  function NextPipe(r: Pipe, c: In, rvalid: bool, idle: bool, offer: MemEntry): Pipe {
    var leaves := r.Leaves(c, rvalid);
    var accept := r.Asks(c) && idle;
    var w := if r.Retires(c) then
               Some(WbEntry(r.memq.value.inst, r.memq.value.alu, c.memRdata, c.csrRdata, c.raiseTrap && !c.trapReturn))
             else None;
    Pipe(Latched(r.exq, r.ControlHazard(c, rvalid), c.idValid, c.id, r.ExReady(c, rvalid)),
         Latched(r.memq, r.MemHazard(c), leaves, offer, r.MemReady(c)), w,
         !leaves && (r.requested || accept), !leaves && (r.rvalided || (r.requested && rvalid)))
  }

  function NextHistory(r: Pipe, h: History, c: In, rvalid: bool, idle: bool, op: MDU.Op): History {
    var leaves := r.Leaves(c, rvalid);
    var requested := !leaves && (r.requested || (r.Asks(c) && idle));
    var done := h.done + if r.Retires(c) then [RetiredFrom(r.memq.value, c, h.memTook)] else [];
    History(h.regs0, done, KeptNext(h.kept, |done|, r.MemHazard(c), r.Accepts(c, rvalid), c.id),
            if leaves then false else if r.MemHazard(c) then requested else h.stale,
            if leaves then Took(h.stale && r.exq.value.isMuldiv, op) else h.memTook)
  }

  /** What the multiply/divide unit does over one edge, as far as the pipeline can tell. */
  predicate UnitStep(asked: bool, i: Option<Inst>, offer: MemEntry, state: MDU.State, op: MDU.Op, result: Word64,
                     state': MDU.State, op': MDU.Op, result': Word64)
  {
    if asked && state == MDU.Idle then
      state' != MDU.Idle && i.Some? && op' == MDU.Op(i.value.funct3, i.value.op32, offer.a, offer.b)
    else
      && op' == op && (state == MDU.Idle || state == MDU.Finish ==> state' == MDU.Idle && result' == result)
      && (state' == MDU.Idle ==> state == MDU.Idle || state == MDU.Finish)
  }

  /** The trace and the register file over one edge. */
  lemma RetireKeeps(f: Alu, regs0: Regs, r: Pipe, h: History, c: In, rvalid: bool, idle: bool, op: MDU.Op, offer: MemEntry)
    requires Sequential(f, h.regs0, h.done) && MemOk(f, h.Arch(), r.memq, h.memTook)
    ensures var h' := NextHistory(r, h, c, rvalid, idle, op);
      && Sequential(f, h'.regs0, h'.done)
      && RegfileOk(h'.regs0, h'.done, h.Arch(), NextPipe(r, c, rvalid, idle, offer).wbq)
      && h'.Arch() == if r.Retires(c) then Apply(h.Arch(), RetiredFrom(r.memq.value, c, h.memTook)) else h.Arch()
  {
    hide Apply, InOrder, MemOk, KeptNext, Sequential, After, Latched, Pipe.ExReady, Pipe.Leaves, Pipe.Accepts,
      Pipe.Asks, Pipe.MemHazard, Pipe.ControlHazard;
    var h' := NextHistory(r, h, c, rvalid, idle, op);
    if r.Retires(c) {
      MemRetires(f, h.regs0, h.done, r.memq.value, c, h.memTook);
      assert Front(h'.done) == h.done;
    } else {
      assert h'.done == h.done;
    }
  }

  /** One edge keeps everything the registers promise. */
  lemma EdgeKeeps(f: Alu, regfile: Regs, r: Pipe, h: History, state: MDU.State, op: MDU.Op, result: Word64, c: In,
                  offer: MemEntry, state': MDU.State, op': MDU.Op, result': Word64)
    requires PipeOk(f, regfile, r, h, state, op, result) && (state == MDU.Finish ==> MDU.Answered(op, result))
    requires c.id.isMuldiv ==> c.id.itype == RB && c.id.funct3 < 8
    requires r.exq.Some? ==> offer == r.Offer(f, regfile, c, result)
    requires UnitStep(r.Asks(c), r.exq, offer, state, op, result, state', op', result')
    ensures PipeOk(f, h.Arch(), NextPipe(r, c, state == MDU.Finish, state == MDU.Idle, offer),
                   NextHistory(r, h, c, state == MDU.Finish, state == MDU.Idle, op), state', op', result')
  {
    hide MDU.Answered, InOrder, Queued, KeptNext, Sequential, OperandIs, RightAlu, Apply, RsHazard, ExOk, MemOk,
      Pipe.Offer, After;
    hide NextPipe, NextHistory, RegfileOk, UnitStep, Pipe.ExReady, Pipe.DataHazard;
    var rvalid, idle := state == MDU.Finish, state == MDU.Idle;
    if r.Leaves(c, rvalid) { OfferIsRight(f, regfile, r, h, state, op, result, c); }
    if r.Asks(c) { AskIsRight(f, regfile, r, h, state, op, result, c); }
    RetireKeeps(f, h.regs0, r, h, c, rvalid, idle, op, offer);
    MemKeeps(f, r, h, c, rvalid, idle, op, offer);
    ExKeeps(r, h, state, op, result, c, offer, state', op', result');
    KeptKeeps(r, h, c, rvalid, idle, op, offer);
  }

  lemma MemKeeps(f: Alu, r: Pipe, h: History, c: In, rvalid: bool, idle: bool, op: MDU.Op, offer: MemEntry)
    requires MemOk(f, h.Arch(), r.memq, h.memTook)
    requires r.Leaves(c, rvalid) ==>
      && offer.inst == r.exq.value
      && OperandIs(h.Arch(), r.memq, offer.inst.rs1, offer.a) && OperandIs(h.Arch(), r.memq, offer.inst.rs2, offer.b)
      && RightAlu(f, offer.inst, offer.a, offer.b, offer.alu, Took(h.stale && offer.inst.isMuldiv, op))
    requires NextHistory(r, h, c, rvalid, idle, op).Arch() ==
      if r.Retires(c) then Apply(h.Arch(), RetiredFrom(r.memq.value, c, h.memTook)) else h.Arch()
    ensures MemOk(f, NextHistory(r, h, c, rvalid, idle, op).Arch(), NextPipe(r, c, rvalid, idle, offer).memq,
                  NextHistory(r, h, c, rvalid, idle, op).memTook)
  {
    hide KeptNext, OperandIs, RightAlu, Apply, MemOk, After, Latched, Pipe.DataHazard, Pipe.MuldivStall;
    var h' := NextHistory(r, h, c, rvalid, idle, op);
    MemStep(f, h.Arch(), r.memq, c, h.memTook, r.MemReady(c), r.MemHazard(c), r.Leaves(c, rvalid), offer, h'.memTook, h'.Arch());
  }

  lemma ExKeeps(r: Pipe, h: History, state: MDU.State, op: MDU.Op, result: Word64, c: In, offer: MemEntry,
                state': MDU.State, op': MDU.Op, result': Word64)
    requires ExOk(h.Arch(), r.memq, r.exq, r.requested, r.rvalided, h.stale, state, op, result)
    requires state == MDU.Finish ==> MDU.Answered(op, result)
    requires c.id.isMuldiv ==> c.id.itype == RB && c.id.funct3 < 8
    requires UnitStep(r.Asks(c), r.exq, offer, state, op, result, state', op', result')
    requires r.Asks(c) ==>
      OperandIs(h.Arch(), r.memq, r.exq.value.rs1, offer.a) && OperandIs(h.Arch(), r.memq, r.exq.value.rs2, offer.b)
    requires NextHistory(r, h, c, state == MDU.Finish, state == MDU.Idle, op).Arch() ==
      if r.Retires(c) then Apply(h.Arch(), RetiredFrom(r.memq.value, c, h.memTook)) else h.Arch()
    ensures var r' := NextPipe(r, c, state == MDU.Finish, state == MDU.Idle, offer);
            var h' := NextHistory(r, h, c, state == MDU.Finish, state == MDU.Idle, op);
            ExOk(h'.Arch(), r'.memq, r'.exq, r'.requested, r'.rvalided, h'.stale, state', op', result')
  {
    hide KeptNext, OperandIs, RightAlu, Apply, MemOk, After, ExOk, MDU.Answered, Pipe.DataHazard;
    var rvalid, idle := state == MDU.Finish, state == MDU.Idle;
    var r', h' := NextPipe(r, c, rvalid, idle, offer), NextHistory(r, h, c, rvalid, idle, op);
    ExStep(h.Arch(), r.memq, c, h.memTook, r.MemReady(c), r.MemHazard(c), r.Leaves(c, rvalid), h'.Arch(), r.exq, r.requested,
           r.rvalided, h.stale, state, op, result, r.Asks(c) && idle, state', op', result', r'.memq, r'.exq);
  }

  lemma KeptKeeps(r: Pipe, h: History, c: In, rvalid: bool, idle: bool, op: MDU.Op, offer: MemEntry)
    requires h.kept == Queued(h.done, r.memq, r.exq)
    requires r.Leaves(c, rvalid) ==> offer.inst == r.exq.value
    ensures var r' := NextPipe(r, c, rvalid, idle, offer);
            var h' := NextHistory(r, h, c, rvalid, idle, op);
            h'.kept == Queued(h'.done, r'.memq, r'.exq)
  {
    hide KeptNext, Queued, Pipe.DataHazard, Pipe.MuldivStall;
    var r', h' := NextPipe(r, c, rvalid, idle, offer), NextHistory(r, h, c, rvalid, idle, op);
    KeptStep(h.done, r.memq, r.exq, c, h.memTook, r.MemReady(c), r.MemHazard(c), r.Leaves(c, rvalid), offer,
             r.Accepts(c, rvalid), r'.memq, r'.exq, h'.done);
  }

  class Core {
    const alu: Alu
    const regfile: array<Word64>
    const mdu: MDU.MulDiv
    var r: Pipe
    ghost var h: History

    ghost predicate Valid()
      reads this, regfile, mdu, mdu.mu, mdu.du
    {
      && regfile.Length == 32 && mdu.Valid()
      && PipeOk(alu, regfile[..], r, h, mdu.state, mdu.op, mdu.result)
    }

    constructor (f: Alu)
      ensures Valid() && fresh(regfile) && fresh(mdu) && fresh(mdu.mu) && fresh(mdu.du) && alu == f
      ensures r == Pipe(None, None, None, false, false) && mdu.state == MDU.Idle && mdu.op == NOTHING_TOOK.op
      ensures h == History(seq(32, i => 0), [], [], false, NOTHING_TOOK)
    {
      alu := f;
      regfile := new Word64[32](i => 0);
      mdu := new MDU.MulDiv();
      r := Pipe(None, None, None, false, false);
      h := History(seq(32, i => 0), [], [], false, NOTHING_TOOK);
      new;
      assert regfile[..] == seq(32, i => 0);
    }

    /** WB writes the register file. */
    method WriteBack()
      requires regfile.Length == 32 && RegfileOk(h.regs0, h.done, regfile[..], r.wbq)
      modifies regfile
      ensures regfile[..] == h.Arch()
    {
      hide Value;
      if r.wbq.Some? {
        var w := r.wbq.value;
        WbWrites(h.regs0, h.done, regfile[..], w);
        if WritesReg(w.inst) && !w.raiseTrap {
          regfile[w.inst.rd] := WbData(w);
        }
      }
    }

    /** The multiply/divide unit over one edge. */
    method Compute(asks: bool, offer: MemEntry)
      requires mdu.Valid() && (asks ==> r.exq.Some? && r.exq.value.funct3 < 8)
      modifies mdu, mdu.mu, mdu.du
      ensures mdu.Valid()
      ensures UnitStep(asks, r.exq, offer, old(mdu.state), old(mdu.op), old(mdu.result), mdu.state, mdu.op, mdu.result)
      ensures 0 < old(mdu.Remaining()) ==> mdu.Remaining() < old(mdu.Remaining())
    {
      if asks {
        mdu.Clock(true, r.exq.value.funct3, r.exq.value.op32, offer.a, offer.b);
      } else {
        mdu.Clock(false, 0, false, 0, 0);
      }
    }

    /** WB and the multiply/divide unit over one edge, and why the queues may follow. */
    method Units(c: In, offer: MemEntry)
      requires Valid() && (c.id.isMuldiv ==> c.id.itype == RB && c.id.funct3 < 8)
      requires offer == if r.exq.Some? then r.Offer(alu, regfile[..], c, mdu.result) else NOTHING
      modifies regfile, mdu, mdu.mu, mdu.du
      ensures mdu.Valid()
      ensures PipeOk(alu, regfile[..], NextPipe(r, c, old(mdu.state) == MDU.Finish, old(mdu.state) == MDU.Idle, offer),
                     NextHistory(r, h, c, old(mdu.state) == MDU.Finish, old(mdu.state) == MDU.Idle, old(mdu.op)),
                     mdu.state, mdu.op, mdu.result)
      ensures UnitStep(r.Asks(c), r.exq, offer, old(mdu.state), old(mdu.op), old(mdu.result), mdu.state, mdu.op, mdu.result)
      ensures 0 < old(mdu.Remaining()) ==> mdu.Remaining() < old(mdu.Remaining())
    {
      hide PipeOk, NextPipe, NextHistory, MDU.Answered, Pipe.Offer, UnitStep, After, Pipe.DataHazard, RegfileOk;
      ghost var state, op, result, was := mdu.state, mdu.op, mdu.result, regfile[..];
      var asks := r.Asks(c);
      if asks { AskIsRight(alu, was, r, h, state, op, result, c); }
      Promises(alu, was, r, h, state, op, result);
      WriteBack();
      Compute(asks, offer);
      EdgeKeeps(alu, was, r, h, state, op, result, c, offer, mdu.state, mdu.op, mdu.result);
    }

    /** One clock edge. Instructions retire in the order they came, each with the operands its elders left; the
        result of a multiplication or division is the ISA's unless the flags outlived a flush. */
    method Clock(c: In) returns (idReady: bool)
      requires Valid()
      requires c.id.isMuldiv ==> c.id.itype == RB && c.id.funct3 < 8
      modifies this, regfile, mdu, mdu.mu, mdu.du
      ensures Valid()
      ensures idReady == (old(r.exq).None? || old(r.ExReady(c, mdu.state == MDU.Finish)))
      ensures h == old(NextHistory(r, h, c, mdu.state == MDU.Finish, mdu.state == MDU.Idle, mdu.op))
      ensures var offer := if old(r.exq).Some? then old(r.Offer(alu, regfile[..], c, mdu.result)) else NOTHING;
        && r == NextPipe(old(r), c, old(mdu.state) == MDU.Finish, old(mdu.state) == MDU.Idle, offer)
        && UnitStep(old(r).Asks(c), old(r).exq, offer, old(mdu.state), old(mdu.op), old(mdu.result), mdu.state, mdu.op, mdu.result)
      ensures 0 < old(mdu.Remaining()) ==> mdu.Remaining() < old(mdu.Remaining())
    {
      hide PipeOk, NextPipe, NextHistory, Pipe.Offer, UnitStep, Pipe.DataHazard;
      var rvalid, idle := mdu.state == MDU.Finish, mdu.state == MDU.Idle;
      ghost var op := mdu.op;
      idReady := r.exq.None? || r.ExReady(c, rvalid);
      var offer := if r.exq.Some? then r.Offer(alu, regfile[..], c, mdu.result) else NOTHING;
      Units(c, offer);
      h := NextHistory(r, h, c, rvalid, idle, op);
      Shift(c, rvalid, idle, offer);
    }

    /** The queues and the flags over one edge. */
    method Shift(c: In, rvalid: bool, idle: bool, offer: MemEntry)
      modifies `r
      ensures r == NextPipe(old(r), c, rvalid, idle, offer)
    {
      var leaves := r.Leaves(c, rvalid);
      var exq := Latched(r.exq, r.ControlHazard(c, rvalid), c.idValid, c.id, r.ExReady(c, rvalid));
      var memq := Latched(r.memq, r.MemHazard(c), leaves, offer, r.MemReady(c));
      var wbq := None;
      if r.Retires(c) {
        var m := r.memq.value;
        wbq := Some(WbEntry(m.inst, m.alu, c.memRdata, c.csrRdata, c.raiseTrap && !c.trapReturn));
      }
      var requested, rvalided := r.requested, r.rvalided;
      if leaves {
        requested, rvalided := false, false;
      } else {
        if requested { rvalided := rvalided || rvalid; }
        if r.Asks(c) && idle { requested := true; }
      }
      r := Pipe(exq, memq, wbq, requested, rvalided);
    }
  }

  lemma Promises(f: Alu, regfile: Regs, r: Pipe, h: History, state: MDU.State, op: MDU.Op, result: Word64)
    requires PipeOk(f, regfile, r, h, state, op, result)
    ensures RegfileOk(h.regs0, h.done, regfile, r.wbq) && Sequential(f, h.regs0, h.done)
  {
  }
}
