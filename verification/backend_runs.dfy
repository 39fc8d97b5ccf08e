/** Whole runs of the back end, and the one way its multiply/divide answers go wrong. */
module BackendRuns {
  import opened Eei
  import opened RV64M
  import opened BackendSpec
  import opened Backend
  import MDU = MulDivUnit

  /** One edge of a run: the registers before it, its inputs, what the multiply/divide unit showed, and the operation
      the unit was last given. */
  datatype Edge = Edge(r: Pipe, h: History, c: In, rvalid: bool, idle: bool, op: MDU.Op, offer: MemEntry) {
    predicate Leaves() { r.Leaves(c, rvalid) }

    /** The unit is given the operation of the instruction in EX. */
    predicate Asked() { r.Asks(c) && idle }

    function AskedOp(): MDU.Op
      requires Asked()
    {
      MDU.Op(r.exq.value.funct3, r.exq.value.op32, offer.a, offer.b)
    }

    /** A hazard in MEM flushes a multiplication or division already handed to its unit. */
    predicate Aborts() { r.MemHazard(c) && !Leaves() && (r.requested || Asked()) }
  }

  predicate Follows(e: Edge, r: Pipe, h: History, op: MDU.Op) {
    && r == NextPipe(e.r, e.c, e.rvalid, e.idle, e.offer) && h == NextHistory(e.r, e.h, e.c, e.rvalid, e.idle, e.op)
    && op == if e.Asked() then e.AskedOp() else e.op
  }

  /** The edges of a run from reset, ending in registers r, history h and the operation op in the unit. */
  predicate Run(edges: seq<Edge>, r: Pipe, h: History, op: MDU.Op) {
    if edges == [] then !r.requested && !h.stale && h.memTook == NOTHING_TOOK && h.done == [] && r.memq == None
    else Follows(Last(edges), r, h, op) && Run(Front(edges), Last(edges).r, Last(edges).h, Last(edges).op)
  }

  // ---- when the flags are stale ----

  /** A flushed instruction has left its flags: since the flush nothing has left EX. */
  predicate FlagsLeft(edges: seq<Edge>) {
    exists i | 0 <= i < |edges| :: edges[i].Aborts() && forall j | i < j < |edges| :: !edges[j].Leaves()
  }

  lemma FlagsLeftNext(edges: seq<Edge>)
    requires edges != []
    ensures FlagsLeft(edges) <==> Last(edges).Aborts() || (!Last(edges).Leaves() && FlagsLeft(Front(edges)))
  {
    hide Edge.Aborts, Edge.Leaves;
    var init, n := Front(edges), |edges| - 1;
    if FlagsLeft(init) && !Last(edges).Leaves() {
      var i :| 0 <= i < n && init[i].Aborts() && forall j | i < j < n :: !init[j].Leaves();
      assert edges[i].Aborts();
    }
    if FlagsLeft(edges) {
      var i :| 0 <= i < |edges| && edges[i].Aborts() && forall j | i < j < |edges| :: !edges[j].Leaves();
      if i < n { assert init[i].Aborts(); }
    }
  }

  /** The flags belong to a flushed instruction exactly then. */
  lemma {:induction false} StaleFlags(edges: seq<Edge>, r: Pipe, h: History, op: MDU.Op)
    requires Run(edges, r, h, op)
    ensures (h.stale <==> FlagsLeft(edges)) && (h.stale ==> r.requested)
  {
    hide FlagsLeft, Pipe.Leaves, Pipe.MemHazard, Pipe.Asks, Pipe.DataHazard, KeptNext;
    if edges != [] {
      var e := Last(edges);
      StaleFlags(Front(edges), e.r, e.h, e.op);
      FlagsLeftNext(edges);
    } else {
      assert !FlagsLeft([]) by { NoFlags(); }
    }
  }

  lemma NoFlags()
    ensures !FlagsLeft([])
  {
  }

  /** An operation was asked for at edge k and nothing has left EX since. */
  predicate AskedAt(edges: seq<Edge>, k: nat, op: MDU.Op) {
    k < |edges| && edges[k].Asked() && op == edges[k].AskedOp() && forall j | k <= j < |edges| :: !edges[j].Leaves()
  }

  /** The flags belong to the operation in the unit: the one asked for by the instruction that was then flushed. */
  lemma {:induction false} FlaggedOp(edges: seq<Edge>, r: Pipe, h: History, op: MDU.Op) returns (k: nat)
    requires Run(edges, r, h, op) && r.requested
    ensures AskedAt(edges, k, op)
  {
    hide Pipe.Leaves, Pipe.MemHazard, Pipe.DataHazard, KeptNext;
    var e := Last(edges);
    if e.Asked() {
      k := |edges| - 1;
    } else {
      k := FlaggedOp(Front(edges), e.r, e.h, e.op);
      forall j | k <= j < |edges|
        ensures !edges[j].Leaves()
      {
        if j < |edges| - 1 { assert Front(edges)[j] == edges[j]; }
      }
    }
  }

  // ---- who takes a stale answer ----

  /** The last instruction to leave EX was an M instruction, and left with stale flags. */
  predicate LastLeftStale(edges: seq<Edge>) {
    edges != [] &&
    if Last(edges).Leaves() then Last(edges).r.exq.value.isMuldiv && FlagsLeft(Front(edges))
    else LastLeftStale(Front(edges))
  }

  /** The entry in MEM took the answer of a flushed instruction exactly then. */
  lemma {:induction false} StaleEntry(edges: seq<Edge>, r: Pipe, h: History, op: MDU.Op)
    requires Run(edges, r, h, op)
    ensures h.memTook.stale <==> LastLeftStale(edges)
  {
    hide FlagsLeft, Pipe.Leaves, Pipe.MemHazard, Pipe.Asks, Pipe.DataHazard, KeptNext;
    if edges != [] {
      var e := Last(edges);
      StaleEntry(Front(edges), e.r, e.h, e.op);
      StaleFlags(Front(edges), e.r, e.h, e.op);
    }
  }

  /** Some instruction has retired with the answer of a flushed one. */
  predicate TookStale(edges: seq<Edge>) {
    exists k | 0 <= k < |edges| :: edges[k].r.Retires(edges[k].c) && LastLeftStale(edges[..k])
  }

  lemma TookStaleNext(edges: seq<Edge>)
    requires edges != []
    ensures TookStale(edges) <==> TookStale(Front(edges)) || (Last(edges).r.Retires(Last(edges).c) && LastLeftStale(Front(edges)))
  {
    hide LastLeftStale, Pipe.Retires;
    var init, n := Front(edges), |edges| - 1;
    assert forall k | 0 <= k < n :: init[..k] == edges[..k] && init[k] == edges[k];
    assert edges[..n] == init;
    if TookStale(init) {
      var k :| 0 <= k < n && init[k].r.Retires(init[k].c) && LastLeftStale(init[..k]);
      assert edges[k].r.Retires(edges[k].c) && LastLeftStale(edges[..k]);
    }
    if Last(edges).r.Retires(Last(edges).c) && LastLeftStale(init) {
      assert edges[n].r.Retires(edges[n].c) && LastLeftStale(edges[..n]);
    }
    if TookStale(edges) {
      var k :| 0 <= k < |edges| && edges[k].r.Retires(edges[k].c) && LastLeftStale(edges[..k]);
      if k < n { assert init[k].r.Retires(init[k].c) && LastLeftStale(init[..k]); }
    }
  }

  /** The trace holds a stale result exactly then. */
  lemma {:induction false} StaleTrace(edges: seq<Edge>, r: Pipe, h: History, op: MDU.Op)
    requires Run(edges, r, h, op)
    ensures (exists x :: x in h.done && x.took.stale) <==> TookStale(edges)
  {
    hide FlagsLeft, LastLeftStale, TookStale, Pipe.Leaves, Pipe.MemHazard, Pipe.Asks, Pipe.DataHazard, KeptNext;
    if edges != [] {
      var e := Last(edges);
      StaleTrace(Front(edges), e.r, e.h, e.op);
      StaleEntry(Front(edges), e.r, e.h, e.op);
      TookStaleNext(edges);
      if e.r.Retires(e.c) {
        assert h.done == e.h.done + [RetiredFrom(e.r.memq.value, e.c, e.h.memTook)];
        assert Last(h.done) in h.done;
      } else {
        assert h.done == e.h.done;
      }
    } else {
      assert !TookStale([]) by { NothingTaken(); }
    }
  }

  lemma NothingTaken()
    ensures !TookStale([])
  {
  }

  // ---- what the trace is ----

  /** In every run the registers and every write are those of the reference machine, in which a stale instruction
      computes what the flushed one asked for. */
  lemma RunIsMachine(f: Alu, regfile: Regs, r: Pipe, h: History, state: MDU.State, op: MDU.Op, result: Word64)
    requires PipeOk(f, regfile, r, h, state, op, result) && forall x :: x in h.done ==> Regular(x)
    ensures Machine(f, h.regs0, Steps(h.done)) == (After(h.regs0, h.done), Writes(h.done))
    ensures r.wbq == None ==> regfile == Machine(f, h.regs0, Steps(h.done)).0
  {
    hide Regular, InOrder, MemOk, ExOk, Queued;
    TraceIsMachine(f, h.regs0, h.done);
  }

  /** A step of its own kind: no other operation instead. */
  lemma {:induction false} OwnSteps(trace: seq<Retired>)
    ensures (forall s :: s in Steps(trace) ==> s.instead == None) <==> !exists x :: x in trace && x.took.stale
  {
    if trace != [] {
      var x := Last(trace);
      OwnSteps(Front(trace));
      assert trace == Front(trace) + [x] && Steps(trace) == Steps(Front(trace)) + [StepOf(x)];
      assert forall y :: y in trace <==> y in Front(trace) || y == x;
      assert forall s :: s in Steps(trace) <==> s in Steps(Front(trace)) || s == StepOf(x);
    }
  }

  /** The reference machine executes every instruction as it is exactly if no instruction took a stale answer. */
  lemma SequentialIfClean(edges: seq<Edge>, r: Pipe, h: History, op: MDU.Op)
    requires Run(edges, r, h, op)
    ensures (forall s :: s in Steps(h.done) ==> s.instead == None) <==> !TookStale(edges)
  {
    hide Run, TookStale, Steps;
    StaleTrace(edges, r, h, op);
    OwnSteps(h.done);
  }

  /** Every sequence of inputs makes such a run of the core. */
  method Execute(f: Alu, inputs: seq<In>) returns (core: Core, ghost edges: seq<Edge>)
    requires forall c :: c in inputs && c.id.isMuldiv ==> c.id.itype == RB && c.id.funct3 < 8
    ensures fresh(core) && core.Valid() && core.alu == f && |edges| == |inputs|
    ensures Run(edges, core.r, core.h, core.mdu.op) && forall n | 0 <= n < |edges| :: edges[n].c == inputs[n]
  {
    hide PipeOk, NextPipe, NextHistory, Pipe.Offer, Pipe.Asks, Core.Valid, Run, UnitStep;
    assert Run([], Pipe(None, None, None, false, false), History(seq(32, i => 0), [], [], false, NOTHING_TOOK), NOTHING_TOOK.op) by { FromReset(); }
    core := new Core(f);
    edges := [];
    for n := 0 to |inputs|
      invariant core.Valid() && core.alu == f && |edges| == n && Run(edges, core.r, core.h, core.mdu.op)
      invariant fresh(core) && fresh(core.regfile) && fresh(core.mdu) && fresh(core.mdu.mu) && fresh(core.mdu.du)
      invariant forall k | 0 <= k < n :: edges[k].c == inputs[k]
    {
      var c := inputs[n];
      Sized(core);
      ghost var offer := if core.r.exq.Some? then core.r.Offer(f, core.regfile[..], c, core.mdu.result) else NOTHING;
      ghost var e := Edge(core.r, core.h, c, core.mdu.state == MDU.Finish, core.mdu.state == MDU.Idle, core.mdu.op, offer);
      ghost var state, result := core.mdu.state, core.mdu.result;
      var _ := core.Clock(c);
      ClockFollows(edges, e, core.r, core.h, state, result, core.mdu.state, core.mdu.op, core.mdu.result);
      edges := edges + [e];
    }
  }

  lemma FromReset()
    ensures Run([], Pipe(None, None, None, false, false), History(seq(32, i => 0), [], [], false, NOTHING_TOOK), NOTHING_TOOK.op)
  {
  }

  lemma ClockFollows(edges: seq<Edge>, e: Edge, r: Pipe, h: History, state: MDU.State, result: Word64,
                     state': MDU.State, op: MDU.Op, result': Word64)
    requires Run(edges, e.r, e.h, e.op) && e.idle == (state == MDU.Idle)
    requires r == NextPipe(e.r, e.c, e.rvalid, e.idle, e.offer) && h == NextHistory(e.r, e.h, e.c, e.rvalid, e.idle, e.op)
    requires UnitStep(e.r.Asks(e.c), e.r.exq, e.offer, state, e.op, result, state', op, result')
    ensures Run(edges + [e], r, h, op)
  {
    hide NextPipe, NextHistory;
    assert Front(edges + [e]) == edges;
  }

  lemma Sized(core: Core)
    requires core.Valid()
    ensures core.regfile.Length == 32
  {
  }

  const NO_OP := NOTHING.inst
  const NO_IN := In(false, NO_OP, false, 0, 0, false, false, false, false)
  const TRAPPING := NO_OP.(expt := true)
  const DIVIDE := NO_OP.(isMuldiv := true, rwbEn := true, rd := 5, funct3 := 4)
  const MULTIPLY := DIVIDE.(funct3 := 0)

  /** Wait out the flushed division: nothing is in the pipeline, yet the flags stay set. */
  method WaitForUnit(core: Core)
    requires core.Valid() && core.r.exq == None && core.r.memq == None && core.r.requested
    requires core.r.wbq.Some? ==> !WritesReg(core.r.wbq.value.inst)
    requires core.mdu.op == MDU.Op(4, false, 0, 0) && core.h.regs0 == seq(32, i => 0) && After(core.h.regs0, core.h.done) == core.h.regs0
    modifies core, core.regfile, core.mdu, core.mdu.mu, core.mdu.du
    ensures core.Valid() && core.r.exq == None && core.r.memq == None && core.r.requested && core.r.rvalided
    ensures core.r.wbq.Some? ==> !WritesReg(core.r.wbq.value.inst)
    ensures core.mdu.op == MDU.Op(4, false, 0, 0) && core.h.done == old(core.h.done) && core.h.regs0 == old(core.h.regs0)
  {
    hide Sequential, RegfileOk, MemOk, MDU.Answered, Queued, After;
    while !core.r.rvalided
      invariant core.Valid() && core.r.exq == None && core.r.memq == None && core.r.requested
      invariant core.r.wbq.Some? ==> !WritesReg(core.r.wbq.value.inst)
      invariant core.mdu.op == MDU.Op(4, false, 0, 0) && core.h.done == old(core.h.done) && core.h.regs0 == old(core.h.regs0)
      decreases core.mdu.Remaining()
    {
      var _ := core.Clock(NO_IN);
    }
  }

  /** A division reaches EX behind an instruction that is about to trap. */
  method DivideBehindTrap(f: Alu) returns (core: Core)
    ensures core.Valid() && fresh(core) && fresh(core.regfile) && fresh(core.mdu) && fresh(core.mdu.mu) && fresh(core.mdu.du)
    ensures core.alu == f && core.mdu.state == MDU.Idle
    ensures core.r == Pipe(Some(DIVIDE), Some(MemEntry(TRAPPING, 0, 0, f(TRAPPING, 0, 0))), None, false, false)
    ensures core.h == History(seq(32, i => 0), [], [TRAPPING, DIVIDE], false, NOTHING_TOOK)
  {
    hide PipeOk;
    core := new Core(f);
    var _ := core.Clock(NO_IN.(idValid := true, id := TRAPPING));
    assert core.r == Pipe(Some(TRAPPING), None, None, false, false);
    assert core.h == History(seq(32, i => 0), [], [TRAPPING], false, NOTHING_TOOK);
    ghost var zero: Regs := core.regfile[..];
    var _ := core.Clock(NO_IN.(idValid := true, id := DIVIDE));
  }

  /** The trap flushes the division while its unit works on it. */
  method FlushedDivide(f: Alu) returns (core: Core)
    ensures core.Valid() && fresh(core) && fresh(core.regfile) && fresh(core.mdu) && fresh(core.mdu.mu) && fresh(core.mdu.du)
    ensures core.r.exq == None && core.r.memq == None && core.r.requested && core.h.stale
    ensures core.r.wbq.Some? ==> !WritesReg(core.r.wbq.value.inst)
    ensures core.mdu.op == MDU.Op(4, false, 0, 0) && core.h.regs0 == seq(32, i => 0) && core.alu == f
    ensures After(core.h.regs0, core.h.done) == core.h.regs0
  {
    hide PipeOk;
    core := DivideBehindTrap(f);
    var _ := core.Clock(NO_IN.(raiseTrap := true));
  }

  lemma UnitHolds(f: Alu, regfile: Regs, r: Pipe, h: History, state: MDU.State, op: MDU.Op, result: Word64)
    requires PipeOk(f, regfile, r, h, state, op, result) && r.rvalided && op == MDU.Op(4, false, 0, 0)
    ensures state == MDU.Idle && result == P64 - 1
  {
    hide InOrder, MemOk, Queued, After, RegfileOk, OperandIs;
  }

  /** The next multiplication, of zero by zero, leaves EX with the quotient of the flushed division, 2^64 - 1. */
  method StaleAnswer(f: Alu) returns (core: Core)
    ensures core.Valid() && fresh(core) && core.r.memq.Some?
    ensures core.r.memq.value == MemEntry(MULTIPLY, 0, 0, P64 - 1)
    ensures Compute(f, MULTIPLY, 0, 0) == 0
  {
    hide PipeOk;
    core := FlushedDivide(f);
    WaitForUnit(core);
    var _ := core.Clock(NO_IN.(idValid := true, id := MULTIPLY));
    UnitHolds(f, core.regfile[..], core.r, core.h, core.mdu.state, core.mdu.op, core.mdu.result);
    var _ := core.Clock(NO_IN);
  }
}
