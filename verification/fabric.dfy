/** From the fetch and data sides, and the DMA engine, to the RAM and back. */
module RamFabric {
  import opened Bytes
  import opened Eei
  import opened RamMemory

  datatype Side = FetchSide | DataSide

  datatype Device = Ram | Other

  /** One cycle's inputs: the three requesters, and whatever device other than RAM the controller talks to. */
  datatype In = In(i: Option<nat>, d: Option<Req>, dLow: bool, dma: Option<Req>,
                   otherReady: bool, otherRvalid: bool, otherRdata: Word)

  /** A port's handshake and answer. */
  datatype Port = Port(ready: bool, rvalid: bool, rdata: Word)

  datatype Out = Out(i: Port, d: Port, dma: Port)

  /** Registers of the I/D multiplexer, the controller's request holder and the CPU/DMA arbiter. */
  datatype Switch = Switch(lastI: bool, saved: Option<Req>, issued: bool, lastDevice: Device, waiting: bool, lastIsCpu: bool)

  /** Where RAM starts, its size in words, and which device an address decodes to. */
  datatype Layout = Layout(begin: nat, words: nat, device: nat -> Device) {
    predicate Ok() { 0 < words && forall a: nat :: device(a) == Ram ==> begin <= a }

    /** RAM word of a byte offset; the address wraps at the size of the memory. */
    function WordIx(offset: nat): (x: nat)
      requires 0 < words
      ensures x < words
    {
      offset / 8 % words
    }
  }

  // ---- wires ----

  /** The request the I/D multiplexer passes on: data first, unless it yields. */
  function SelectsData(c: In): bool { c.d.Some? && !(c.dLow && c.i.Some?) }

  function Muxed(c: In): Option<Req> {
    if SelectsData(c) then c.d
    else if c.i.Some? then Some(Req(c.i.value, false, ZERO_WORD, [false, false, false, false, false, false, false, false]))
    else None
  }

  /** What the controller drives towards RAM, and what the arbiter passes to the memory. */
  function CpuReq(l: Layout, r: Switch): Option<Req>
    requires l.Ok() && (r.saved.Some? ==> r.lastDevice == l.device(r.saved.value.addr))
  {
    if r.saved.Some? && !r.issued && r.lastDevice == Ram then
      Some(r.saved.value.(addr := l.WordIx(r.saved.value.addr - l.begin)))
    else None
  }

  function Granted(l: Layout, r: Switch, c: In): Option<Req>
    requires l.Ok() && (r.saved.Some? ==> r.lastDevice == l.device(r.saved.value.addr))
  {
    if r.waiting then None
    else if CpuReq(l, r).Some? then CpuReq(l, r)
    else if c.dma.Some? then Some(c.dma.value.(addr := l.WordIx(c.dma.value.addr)))
    else None
  }

  // ---- who waits for what ----

  /** A request on its way, with its answer once the memory has taken it. */
  datatype Open = Closed | Open(side: Side, req: Req, answer: Option<Word>)

  datatype Engine = Idle | Engine(req: Req, answer: Word)

  function FetchReq(addr: nat): Req { Req(addr, false, ZERO_WORD, [false, false, false, false, false, false, false, false]) }

  /** The registers agree with the open requests, and the memory's answer is the one its request will get. */
  predicate FabricOk(l: Layout, r: Switch, m: RamMemory.Regs, cpu: Open, dma: Engine) {
    && l.Ok()
    && (r.saved.Some? <==> cpu.Open?)
    && (cpu.Open? ==> cpu.req == r.saved.value && (cpu.side == FetchSide <==> r.lastI) && r.lastDevice == l.device(cpu.req.addr))
    && (r.issued ==> cpu.Open?)
    && (cpu.Open? && r.lastDevice == Ram ==>
          (r.issued <==> r.waiting && r.lastIsCpu) && (cpu.answer.Some? <==> r.issued))
    && (r.waiting && r.lastIsCpu ==> cpu.Open? && r.issued && r.lastDevice == Ram)
    && (r.waiting && !r.lastIsCpu <==> dma.Engine?)
    && (r.waiting <==> m.state == WriteValid || m.rvalid)
    && !(m.state == WriteValid && m.rvalid)
    && (r.waiting && m.rvalid && r.lastIsCpu && !cpu.req.wen ==> m.rdata == cpu.answer.value)
    && (r.waiting && m.state == WriteValid && r.lastIsCpu ==> cpu.req.wen)
    && (r.waiting && m.rvalid && !r.lastIsCpu && !dma.req.wen ==> m.rdata == dma.answer)
    && (r.waiting && m.state == WriteValid && !r.lastIsCpu ==> dma.req.wen)
  }

  /** Edges until a data or fetch request for RAM is answered: it waits for at most one other request. */
  function EdgesLeft(r: Switch, m: RamMemory.Regs): nat {
    if r.saved.None? then 0
    else if r.issued then if m.state == WriteValid then 2 else 1
    else 3 + (if !r.waiting then 0 else if m.state == WriteValid then 2 else 1)
  }

  predicate Fires(l: Layout, r: Switch, m: RamMemory.Regs, c: In)
    requires l.Ok() && (r.saved.Some? ==> r.lastDevice == l.device(r.saved.value.addr))
  {
    Granted(l, r, c).Some? && m.state == Ready
  }

  /** The answer the controller forwards, and to whom the arbiter's answers go. */
  predicate CpuRvalid(r: Switch, m: RamMemory.Regs) { r.waiting && m.rvalid && r.lastIsCpu }

  predicate DmaRvalid(r: Switch, m: RamMemory.Regs) { r.waiting && m.rvalid && !r.lastIsCpu }

  predicate CoreRvalid(r: Switch, m: RamMemory.Regs, c: In) {
    r.saved.Some? && if r.lastDevice == Ram then CpuRvalid(r, m) else c.otherRvalid
  }

  function CpuNext(l: Layout, r: Switch, m: RamMemory.Regs, contents: seq<Word>, cpu: Open, c: In): Open
    requires l.Ok() && |contents| == l.words && (r.saved.Some? ==> r.lastDevice == l.device(r.saved.value.addr))
  {
    if cpu.Closed? then
      if Muxed(c).Some? then Open(if SelectsData(c) then DataSide else FetchSide, Muxed(c).value, None) else Closed
    else if CoreRvalid(r, m, c) then Closed
    else if Fires(l, r, m, c) && CpuReq(l, r).Some? then cpu.(answer := Some(contents[CpuReq(l, r).value.addr]))
    else cpu
  }

  function DmaNext(l: Layout, r: Switch, m: RamMemory.Regs, contents: seq<Word>, dma: Engine, c: In): Engine
    requires l.Ok() && |contents| == l.words && (r.saved.Some? ==> r.lastDevice == l.device(r.saved.value.addr))
  {
    if DmaRvalid(r, m) then Idle
    else if Fires(l, r, m, c) && CpuReq(l, r).None? then
      Engine(Granted(l, r, c).value, contents[Granted(l, r, c).value.addr])
    else dma
  }

  function SwitchAfter(r: Switch, l: Layout, c: In, fires: bool, byCpu: bool, rvalid: bool): Switch {
    var answered := if r.lastDevice == Ram then r.waiting && rvalid && r.lastIsCpu else c.otherRvalid;
    var done := r.saved.Some? && r.issued && answered;
    var enters := r.saved.None? && Muxed(c).Some?;
    Switch(if enters then !SelectsData(c) else r.lastI,
           if enters then Muxed(c) else if done then None else r.saved,
           if r.saved.Some? then !done && (r.issued || if r.lastDevice == Ram then fires && byCpu else c.otherReady)
           else if enters then false else r.issued,
           if enters then l.device(Muxed(c).value.addr) else r.lastDevice,
           if r.waiting then !rvalid else fires,
           if !r.waiting && fires then byCpu else r.lastIsCpu)
  }

  function SwitchNext(l: Layout, r: Switch, m: RamMemory.Regs, c: In): Switch
    requires l.Ok() && (r.saved.Some? ==> r.lastDevice == l.device(r.saved.value.addr))
  {
    SwitchAfter(r, l, c, Fires(l, r, m, c), CpuReq(l, r).Some?, m.rvalid)
  }

  /** What the memory's registers do over an edge. */
  predicate MemoryMoves(l: Layout, r: Switch, m: RamMemory.Regs, contents: seq<Word>, c: In, m': RamMemory.Regs)
    requires l.Ok() && |contents| == l.words && (r.saved.Some? ==> r.lastDevice == l.device(r.saved.value.addr))
  {
    var q := if Fires(l, r, m, c) then Granted(l, r, c) else None;
    && m'.state == (if q.Some? && q.value.wen then WriteValid else Ready)
    && m'.rvalid == ((q.Some? && !q.value.wen) || m.state == WriteValid)
    && (q.Some? && !q.value.wen ==> m'.rdata == contents[q.value.addr])
  }

  lemma StepKeeps(l: Layout, r: Switch, m: RamMemory.Regs, contents: seq<Word>, cpu: Open, dma: Engine, c: In, m': RamMemory.Regs)
    requires FabricOk(l, r, m, cpu, dma) && |contents| == l.words
    requires MemoryMoves(l, r, m, contents, c, m')
    requires c.otherRvalid ==> r.saved.Some? && r.issued && r.lastDevice == Other
    ensures FabricOk(l, SwitchNext(l, r, m, c), m', CpuNext(l, r, m, contents, cpu, c), DmaNext(l, r, m, contents, dma, c))
    ensures cpu.Open? && r.lastDevice == Ram && !CoreRvalid(r, m, c) ==> EdgesLeft(SwitchNext(l, r, m, c), m') < EdgesLeft(r, m) <= 5
  {
    hide Layout.WordIx;
  }

  lemma MovesIs(l: Layout, r: Switch, m: RamMemory.Regs, contents: seq<Word>, c: In, m': RamMemory.Regs)
    requires l.Ok() && |contents| == l.words && (r.saved.Some? ==> r.lastDevice == l.device(r.saved.value.addr))
    requires var q := if Fires(l, r, m, c) then Granted(l, r, c) else None;
      && m'.state == (if q.Some? && q.value.wen then WriteValid else Ready)
      && m'.rvalid == ((q.Some? && !q.value.wen) || m.state == WriteValid)
      && (q.Some? ==> q.value.addr < |contents|)
      && (q.Some? && !q.value.wen ==> m'.rdata == contents[q.value.addr])
    ensures MemoryMoves(l, r, m, contents, c, m')
  {
  }

  /** What the invariant says about the answers of a cycle and the request it lets through. */
  lemma OpenFacts(l: Layout, r: Switch, m: RamMemory.Regs, cpu: Open, dma: Engine, c: In)
    requires FabricOk(l, r, m, cpu, dma)
    ensures l.Ok() && (r.saved.Some? ==> r.lastDevice == l.device(r.saved.value.addr))
    ensures r.saved.Some? <==> cpu.Open?
    ensures CoreRvalid(r, m, c) <==>
              cpu.Open? && if l.device(cpu.req.addr) == Ram then cpu.answer.Some? && m.rvalid else c.otherRvalid
    ensures CoreRvalid(r, m, c) ==> cpu.Open? && (cpu.side == FetchSide <==> r.lastI) && r.lastDevice == l.device(cpu.req.addr)
    ensures CoreRvalid(r, m, c) && r.lastDevice == Ram ==> cpu.answer.Some? && (!cpu.req.wen ==> m.rdata == cpu.answer.value)
    ensures cpu.Open? ==> r.lastDevice == l.device(cpu.req.addr)
    ensures DmaRvalid(r, m) ==> dma.Engine? && (!dma.req.wen ==> m.rdata == dma.answer)
    ensures Fires(l, r, m, c) ==> Granted(l, r, c).Some? && Granted(l, r, c).value.addr < l.words && !DmaRvalid(r, m) && !CpuRvalid(r, m)
    ensures m.state == WriteValid ==> !Fires(l, r, m, c)
    ensures dma.Engine? ==> !Fires(l, r, m, c)
    ensures c.dma.Some? && Fires(l, r, m, c) && CpuReq(l, r).None? <==>
              c.dma.Some? && dma.Idle? && !(cpu.Open? && l.device(cpu.req.addr) == Ram)
    ensures Fires(l, r, m, c) && CpuReq(l, r).None? ==> c.dma.Some? && Granted(l, r, c) == Some(c.dma.value.(addr := l.WordIx(c.dma.value.addr)))
  {
    hide Layout.WordIx;
  }

  class Fabric {
    const l: Layout
    const memory: Memory
    var r: Switch
    ghost var cpu: Open
    ghost var dma: Engine
    ghost var initial: seq<Word>
    /** The RAM requests in the order the memory took them. */
    ghost var taken: seq<Req>

    ghost predicate Valid()
      reads this, memory, memory.mem
    {
      && memory.Valid() && memory.mem.Length == l.words == |initial|
      && FabricOk(l, r, memory.r, cpu, dma)
      && (forall q :: q in taken ==> q.addr < l.words)
      && memory.Contents() == Replayed(initial, taken)
    }

    constructor (l: Layout)
      requires l.Ok()
      ensures Valid() && fresh(memory) && fresh(memory.mem) && taken == [] && cpu == Closed && dma == Idle && this.l == l
    {
      this.l := l;
      memory := new Memory(l.words);
      r := Switch(false, None, false, Other, false, true);
      cpu, dma, initial, taken := Closed, Idle, seq(l.words, i => ZERO_WORD), [];
    }

    /** The open core request is answered in this cycle: one for RAM once memory has it and shows the answer. */
    ghost predicate Answers(c: In)
      reads this, memory
    {
      cpu.Open? && if l.device(cpu.req.addr) == Ram then cpu.answer.Some? && memory.r.rvalid else c.otherRvalid
    }

    /** What the ports show in a cycle: a response goes to the side whose request is open, with the word owed, and a
        port is ready when no request stands in its way. */
    method Outputs(c: In) returns (out: Out)
      requires Valid()
      ensures out.i.rvalid <==> Answers(c) && cpu.side == FetchSide
      ensures out.d.rvalid <==> Answers(c) && cpu.side == DataSide
      ensures Answers(c) && !cpu.req.wen ==>
        var port := if cpu.side == FetchSide then out.i else out.d;
        port.rdata == if l.device(cpu.req.addr) == Ram then cpu.answer.value else c.otherRdata
      ensures out.dma.rvalid <==> dma.Engine? && memory.r.rvalid
      ensures out.dma.rvalid && !dma.req.wen ==> out.dma.rdata == dma.answer
      ensures out.d.ready <==> cpu.Closed? && SelectsData(c)
      ensures out.i.ready <==> cpu.Closed? && !SelectsData(c)
      ensures out.dma.ready <==> c.dma.Some? && dma.Idle? && !(cpu.Open? && l.device(cpu.req.addr) == Ram)
    {
      hide Replayed, Layout.WordIx;
      OpenFacts(l, r, memory.r, cpu, dma, c);
      var core, data := CoreRvalid(r, memory.r, c), if r.lastDevice == Ram then memory.r.rdata else c.otherRdata;
      out := Out(Port(r.saved.None? && !SelectsData(c), core && r.lastI, data),
                 Port(r.saved.None? && SelectsData(c), core && !r.lastI, data),
                 Port(!r.waiting && CpuReq(l, r).None? && c.dma.Some? && memory.r.state == Ready, DmaRvalid(r, memory.r), memory.r.rdata));
    }

    /** The multiplexer, the request holder and the arbiter over one edge, in which the memory goes from `m` to `m'`:
        they go on agreeing with the open requests, and a request for RAM comes closer to its answer. */
    method Forward(c: In, fires: bool, byCpu: bool, rvalid: bool, ghost m: RamMemory.Regs, ghost contents: seq<Word>, ghost m': RamMemory.Regs)
      requires FabricOk(l, r, m, cpu, dma) && |contents| == l.words && MemoryMoves(l, r, m, contents, c, m')
      requires c.otherRvalid ==> r.saved.Some? && r.issued && r.lastDevice == Other
      requires fires == Fires(l, r, m, c) && byCpu == CpuReq(l, r).Some? && rvalid == m.rvalid
      modifies `r
      ensures FabricOk(l, r, m', old(CpuNext(l, r, m, contents, cpu, c)), old(DmaNext(l, r, m, contents, dma, c)))
      ensures cpu.Open? && old(r.lastDevice) == Ram && !old(CoreRvalid(r, m, c)) ==> EdgesLeft(r, m') < old(EdgesLeft(r, m)) <= 5
    {
      hide FabricOk, CpuReq, Granted, Fires, MemoryMoves, EdgesLeft, CpuNext, DmaNext, Layout.WordIx;
      ghost var was := r;
      StepKeeps(l, r, m, contents, cpu, dma, c, m');
      var lastI, saved, issued, lastDevice := r.lastI, r.saved, r.issued, r.lastDevice;
      var answered := if r.lastDevice == Ram then r.waiting && rvalid && r.lastIsCpu else c.otherRvalid;
      if r.saved.Some? {
        if !r.issued && (if r.lastDevice == Ram then fires && byCpu else c.otherReady) {
          issued := true;
        }
        if r.issued && answered {
          saved, issued := None, false;
        }
      } else if Muxed(c).Some? {
        lastI, saved, issued, lastDevice := !SelectsData(c), Muxed(c), false, l.device(Muxed(c).value.addr);
      }
      var waiting, lastIsCpu := r.waiting, r.lastIsCpu;
      if r.waiting {
        if rvalid { waiting := false; }
      } else if fires {
        waiting, lastIsCpu := true, byCpu;
      }
      r := Switch(lastI, saved, issued, lastDevice, waiting, lastIsCpu);
      assert r == SwitchAfter(was, l, c, fires, byCpu, rvalid);
    }

    /** All registers and the memory over one edge. */
    method Edge(c: In)
      requires Valid()
      requires c.otherRvalid ==> r.saved.Some? && r.issued && r.lastDevice == Other
      modifies this, memory, memory.mem
      ensures Valid() && initial == old(initial)
      ensures taken == old(taken) + old(if Fires(l, r, memory.r, c) then [Granted(l, r, c).value] else [])
      ensures cpu == old(CpuNext(l, r, memory.r, memory.Contents(), cpu, c))
      ensures dma == old(DmaNext(l, r, memory.r, memory.Contents(), dma, c))
      ensures old(cpu).Open? && old(r.lastDevice) == Ram && !old(CoreRvalid(r, memory.r, c)) ==>
        EdgesLeft(r, memory.r) < old(EdgesLeft(r, memory.r)) <= 5
    {
      hide FabricOk, Granted, Fires, MemoryMoves, EdgesLeft, SwitchAfter, Replayed, Layout.WordIx, AfterReq, CpuNext,
        DmaNext, CoreRvalid;
      OpenFacts(l, r, memory.r, cpu, dma, c);
      ghost var was, m, contents := r, memory.r, memory.Contents();
      var fires, byCpu, rvalid := Fires(l, r, memory.r, c), CpuReq(l, r).Some?, memory.r.rvalid;
      var q := if fires then Granted(l, r, c) else None;
      memory.Clock(q);
      assert MemoryMoves(l, was, m, contents, c, memory.r) by { MovesIs(l, was, m, contents, c, memory.r); }
      Forward(c, fires, byCpu, rvalid, m, contents, memory.r);
      cpu, dma := CpuNext(l, was, m, contents, cpu, c), DmaNext(l, was, m, contents, dma, c);
      if q.Some? {
        ReplayedSnoc(initial, taken, q.value);
        taken := taken + [q.value];
      } else {
        assert taken + [] == taken;
      }
    }

    /** One clock edge. Every request is answered once, on the side that made it and with the word the memory held
        when it took the request; and the memory is what the requests it took, in that order, make of it. */
    method Clock(c: In) returns (out: Out)
      requires Valid()
      requires c.otherRvalid ==> r.saved.Some? && r.issued && r.lastDevice == Other
      modifies this, memory, memory.mem
      ensures Valid() && initial == old(initial)
      ensures taken == old(taken) + old(if Fires(l, r, memory.r, c) then [Granted(l, r, c).value] else [])
      ensures !(out.i.rvalid && out.d.rvalid) && (out.i.rvalid || out.d.rvalid <==> old(Answers(c)))
      ensures out.i.rvalid || out.d.rvalid ==>
        var port := if out.i.rvalid then out.i else out.d;
        && old(cpu).Open? && old(cpu).side == (if out.i.rvalid then FetchSide else DataSide)
        && (l.device(old(cpu).req.addr) == Ram ==>
              old(cpu).answer.Some? && (!old(cpu).req.wen ==> port.rdata == old(cpu).answer.value))
      ensures out.dma.rvalid ==> old(dma).Engine? && (!old(dma).req.wen ==> out.dma.rdata == old(dma).answer)
      ensures cpu == old(CpuNext(l, r, memory.r, memory.Contents(), cpu, c))
      ensures cpu.Closed? ==> old(cpu).Closed? || out.i.rvalid || out.d.rvalid
      ensures old(cpu).Open? && (out.i.rvalid || out.d.rvalid) ==> cpu.Closed?
      ensures old(cpu).Closed? ==>
        && (out.d.ready && c.d.Some? ==> cpu == Open(DataSide, c.d.value, None))
        && (out.i.ready && c.i.Some? ==> cpu == Open(FetchSide, FetchReq(c.i.value), None))
      ensures dma == old(DmaNext(l, r, memory.r, memory.Contents(), dma, c))
      ensures out.d.ready == (old(cpu).Closed? && SelectsData(c)) && out.i.ready == (old(cpu).Closed? && !SelectsData(c))
      ensures out.dma.ready == (c.dma.Some? && old(dma).Idle? && !(old(cpu).Open? && l.device(old(cpu).req.addr) == Ram))
      ensures old(dma).Engine? && dma != old(dma) ==> out.dma.rvalid
      ensures out.dma.ready ==> c.dma.Some? && dma == Engine(c.dma.value.(addr := l.WordIx(c.dma.value.addr)), old(memory.Contents())[l.WordIx(c.dma.value.addr)])
      ensures old(cpu).Open? && l.device(old(cpu).req.addr) == Ram ==>
        out.i.rvalid || out.d.rvalid || EdgesLeft(r, memory.r) < old(EdgesLeft(r, memory.r)) <= 5
    {
      hide FabricOk, Granted, Fires, EdgesLeft, Replayed, Layout.WordIx, SwitchNext;
      OpenFacts(l, r, memory.r, cpu, dma, c);
      out := Outputs(c);
      Edge(c);
    }
  }

  /** RAM after a sequence of requests. */
  function Replayed(m: seq<Word>, qs: seq<Req>): (m': seq<Word>)
    requires forall q :: q in qs ==> q.addr < |m|
    ensures |m'| == |m|
  {
    if qs == [] then m else AfterReq(Replayed(m, qs[..|qs| - 1]), qs[|qs| - 1])
  }

  lemma ReplayedSnoc(m: seq<Word>, qs: seq<Req>, q: Req)
    requires (forall x :: x in qs ==> x.addr < |m|) && q.addr < |m|
    ensures Replayed(m, qs + [q]) == AfterReq(Replayed(m, qs), q)
  {
    hide AfterReq;
    assert (qs + [q])[..|qs|] == qs;
  }
}
