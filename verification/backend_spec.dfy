/** What the back end must look like: one instruction after another on one register file. */
module BackendSpec {
  import opened Eei
  import opened RV64M
  import MDU = MulDivUnit

  type Reg = x: nat | x < 32

  datatype IType = RB | IS | UJ

  /** A decoded instruction. `flushes` stands for fence.i; `translation` for satp accesses and sfence.vma. */
  datatype Inst = Inst(
    pc: Word64, rs1: Reg, rs2: Reg, rd: Reg, imm: Word64, itype: IType, rwbEn: bool, isLui: bool, isJump: bool,
    isRvc: bool, isLoad: bool, isAmo: bool, isCsr: bool, isMuldiv: bool, funct3: nat, op32: bool,
    flushes: bool, translation: bool, expt: bool)

  /** The combinational ALU: its result from the two operands. */
  type Alu = (Inst, Word64, Word64) -> Word64

  function Op1(i: Inst, a: Word64): Word64 { if i.itype == UJ then i.pc else a }

  function Op2(i: Inst, b: Word64): Word64 { if i.itype == RB then b else i.imm }

  /** What an instruction writes, from what each unit computed for it. */
  function Value(i: Inst, alu: Word64, mem: Word64, csr: Word64): Word64 {
    if i.isLui then i.imm
    else if i.isJump then (i.pc + (if i.isRvc then 2 else 4)) % P64
    else if i.isLoad || i.isAmo then mem
    else if i.isCsr then csr
    else alu
  }

  predicate WritesReg(i: Inst) { i.rwbEn && i.rd != 0 }

  /** Whose answer an M instruction took: the operation, and whether it was that of an older, flushed instruction. */
  datatype Took = Took(stale: bool, op: MDU.Op)

  const NOTHING_TOOK := Took(false, MDU.Op(0, false, 0, 0))

  /** An instruction that left MEM: the operands it used, what it got from the memory and CSR units, whether it
      trapped, and whose answer it took. */
  datatype Retired = Retired(
    inst: Inst, a: Word64, b: Word64, alu: Word64, mem: Word64, csr: Word64, trapped: bool, took: Took)

  type Regs = s: seq<Word64> | |s| == 32 witness seq(32, i => 0)

  function RegAt(regs: Regs, rs: Reg): Word64 { if rs == 0 then 0 else regs[rs] }

  function Apply(regs: Regs, r: Retired): Regs {
    if WritesReg(r.inst) && !r.trapped then regs[r.inst.rd := Value(r.inst, r.alu, r.mem, r.csr)] else regs
  }

  function Front<T>(s: seq<T>): (f: seq<T>)
    requires s != []
    ensures |f| == |s| - 1
  {
    s[..|s| - 1]
  }

  function Last<T>(s: seq<T>): T
    requires s != []
  {
    s[|s| - 1]
  }

  function After(regs: Regs, trace: seq<Retired>): Regs {
    if trace == [] then regs else Apply(After(regs, Front(trace)), Last(trace))
  }

  /** The operation an M instruction asks for. */
  function OwnOp(i: Inst, a: Word64, b: Word64): MDU.Op { MDU.Op(i.funct3, i.op32, Op1(i, a), Op2(i, b)) }

  /** An execution result is the one the operands determine; that of an M instruction is the answer to the operation
      it took, which is its own unless it is stale. */
  predicate RightAlu(f: Alu, i: Inst, a: Word64, b: Word64, alu: Word64, took: Took) {
    if i.isMuldiv then MDU.Answered(took.op, alu) && (!took.stale ==> took.op == OwnOp(i, a, b))
    else !took.stale && alu == f(i, Op1(i, a), Op2(i, b))
  }

  predicate InOrder(f: Alu, regs: Regs, r: Retired) {
    && r.a == RegAt(regs, r.inst.rs1) && r.b == RegAt(regs, r.inst.rs2)
    && RightAlu(f, r.inst, r.a, r.b, r.alu, r.took)
  }

  /** Every instruction used the registers as all older ones left them. */
  predicate Sequential(f: Alu, regs: Regs, trace: seq<Retired>) {
    trace != [] ==> Sequential(f, regs, Front(trace)) && InOrder(f, After(regs, Front(trace)), Last(trace))
  }

  // ---- the reference machine ----

  /** One instruction for the reference machine, with what the outside answered, and the operation it computes
      instead of its own, if any. */
  datatype Step = Step(inst: Inst, mem: Word64, csr: Word64, trapped: bool, instead: Option<MDU.Op>)

  function Answer(op: MDU.Op): Word64 { if IsOp(op.funct3, op.op32) then Result(op.funct3, op.op32, op.op1, op.op2) else 0 }

  function Compute(f: Alu, i: Inst, a: Word64, b: Word64): Word64 {
    if i.isMuldiv then Answer(OwnOp(i, a, b)) else f(i, Op1(i, a), Op2(i, b))
  }

  function Execute(f: Alu, s: Step, a: Word64, b: Word64): Word64 {
    if s.instead.Some? then Answer(s.instead.value) else Compute(f, s.inst, a, b)
  }

  /** Registers and writes of a machine that finishes each instruction before it starts the next. */
  function Machine(f: Alu, regs: Regs, steps: seq<Step>): (Regs, seq<(Reg, Word64)>) {
    if steps == [] then (regs, [])
    else
      var (before, writes) := Machine(f, regs, Front(steps));
      var s := Last(steps);
      var v := Value(s.inst, Execute(f, s, RegAt(before, s.inst.rs1), RegAt(before, s.inst.rs2)), s.mem, s.csr);
      if WritesReg(s.inst) && !s.trapped then (before[s.inst.rd := v], writes + [(s.inst.rd, v)]) else (before, writes)
  }

  /** A retired instruction as a step: a stale one computes what the flushed one asked for. */
  function StepOf(r: Retired): Step {
    Step(r.inst, r.mem, r.csr, r.trapped, if r.took.stale then Some(r.took.op) else None)
  }

  function Steps(trace: seq<Retired>): (s: seq<Step>)
    ensures |s| == |trace|
  {
    if trace == [] then [] else Steps(Front(trace)) + [StepOf(Last(trace))]
  }

  function Writes(trace: seq<Retired>): seq<(Reg, Word64)> {
    if trace == [] then []
    else
      var r := Last(trace);
      Writes(Front(trace)) +
      if WritesReg(r.inst) && !r.trapped then [(r.inst.rd, Value(r.inst, r.alu, r.mem, r.csr))] else []
  }

  /** An M instruction took the answer to a real operation, and not to the odd REMW by zero. */
  predicate Regular(r: Retired) {
    r.inst.isMuldiv ==> IsOp(r.took.op.funct3, r.took.op.op32) && !r.took.op.Unextended()
  }

  /** A trace in order writes what the reference machine writes. */
  lemma {:induction false} TraceIsMachine(f: Alu, regs: Regs, trace: seq<Retired>)
    requires Sequential(f, regs, trace)
    requires forall r :: r in trace ==> Regular(r)
    ensures Machine(f, regs, Steps(trace)) == (After(regs, trace), Writes(trace))
  {
    hide MDU.Answered, Result, IsOp, MDU.Op.Unextended, Execute, Value, InOrder, Regular;
    if trace != [] {
      TraceIsMachine(f, regs, Front(trace));
      var r := Last(trace);
      ExactAlu(f, After(regs, Front(trace)), r);
      MachineSnoc(f, regs, Steps(Front(trace)), StepOf(r));
      if WritesReg(r.inst) && !r.trapped {
      } else {
        assert Writes(trace) == Writes(Front(trace));
      }
    }
  }

  /** A stale instruction has the right result exactly if both operations have the same answer. */
  lemma StaleResult(f: Alu, regs: Regs, r: Retired)
    requires InOrder(f, regs, r) && Regular(r) && r.inst.isMuldiv
    ensures r.alu == Compute(f, r.inst, r.a, r.b) <==> Answer(r.took.op) == Answer(OwnOp(r.inst, r.a, r.b))
  {
    hide Result, IsOp, MDU.Op.Unextended;
  }

  lemma MachineSnoc(f: Alu, regs: Regs, steps: seq<Step>, s: Step)
    ensures
      var (before, writes) := Machine(f, regs, steps);
      var v := Value(s.inst, Execute(f, s, RegAt(before, s.inst.rs1), RegAt(before, s.inst.rs2)), s.mem, s.csr);
      Machine(f, regs, steps + [s]) ==
        if WritesReg(s.inst) && !s.trapped then (before[s.inst.rd := v], writes + [(s.inst.rd, v)]) else (before, writes)
  {
    hide Execute, Value;
    assert Front(steps + [s]) == steps;
  }

  lemma ExactAlu(f: Alu, regs: Regs, r: Retired)
    requires InOrder(f, regs, r) && Regular(r)
    ensures r.alu == Execute(f, StepOf(r), RegAt(regs, r.inst.rs1), RegAt(regs, r.inst.rs2))
  {
    hide Result, IsOp, MDU.Op.Unextended;
  }

  lemma AfterSnoc(regs: Regs, trace: seq<Retired>, r: Retired)
    ensures After(regs, trace + [r]) == Apply(After(regs, trace), r)
  {
    assert Front(trace + [r]) == trace;
  }

  lemma SequentialSnoc(f: Alu, regs: Regs, trace: seq<Retired>, r: Retired)
    requires Sequential(f, regs, trace) && InOrder(f, After(regs, trace), r)
    ensures Sequential(f, regs, trace + [r])
  {
    hide RightAlu;
    assert Front(trace + [r]) == trace;
  }
}
