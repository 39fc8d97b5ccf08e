/** The data cache with its store buffer, seen from the processor side as a flat memory. */
module FlatMemory {
  import opened Bytes
  import opened Eei
  import opened DCacheCoherence

  /** One request on a data bus. */
  datatype Access = Access(addr: nat, wen: bool, wdata: Word, wmask: Mask,
                           isAmo: bool, amoop: AmoOp, aq: bool, rl: bool, funct3: nat)

  datatype FastLoad = FastLoad(addr: nat, funct3: nat)

  /** `lost`: the reservation of the memory side is gone, for instance because of a trap. It fails a store-conditional
      of the same cycle and takes a reservation made in it. */
  datatype In = In(invalidate: bool, lost: bool, cpu: Option<Access>, fast: Option<FastLoad>,
                   memReady: bool, memRvalid: bool, memRdata: Word)

  datatype Out = Out(ready: bool, rvalid: bool, rdata: Word, fastValid: bool, fastData: Word,
                     mem: Option<Access>, lowPriority: bool, flushBusy: bool)

  /** What the memory side does with an atomic: new word and answer, for the word and the reservation it finds,
      and the reservation it leaves. */
  datatype AtomicUnit = AtomicUnit(run: (Access, Word, Option<nat>) -> (Word, Word), reserve: (Access, Option<nat>) -> Option<nat>)

  /** What the processor is still waiting for. */
  datatype Owed = Nothing | Value(w: Word) | AtomicPending(req: Access) | DevicePending

  /** The reserved address belongs to the memory side; the processor sees it through store-conditionals. */
  datatype Flat = Flat(words: seq<Word>, owed: Owed, res: Option<nat>)

  /** Steps within a request: an atomic takes effect, a device answers, or an atomic takes effect on the
      reservation only, ahead of its time. */
  datatype Hidden = NoStep | AtomicStep | DeviceStep | EarlyStep

  predicate Cacheable(g: Geometry, r: Access) { g.IsRam(r.addr) && !r.isAmo }

  function RamIx(g: Geometry, addr: nat): (x: nat)
    requires g.Ok() && g.IsRam(addr)
    ensures x < g.Words()
  {
    RamWord(g, addr);
    WordNo(addr) - g.Base()
  }

  /** A request enters the flat memory. */
  function Accept(g: Geometry, s: Flat, r: Access): Flat
    requires g.Ok() && |s.words| == g.Words()
  {
    if Cacheable(g, r) then
      var x := RamIx(g, r.addr);
      if r.wen then s.(words := s.words[x := Merge(s.words[x], r.wdata, r.wmask)])
      else s.(owed := Value(s.words[x]))
    else if r.wen && !r.isAmo then s
    else if g.IsRam(r.addr) then s.(owed := AtomicPending(r))
    else s.(owed := DevicePending)
  }

  predicate Atomically(h: Hidden) { h == AtomicStep || h == EarlyStep }

  function TakeHidden(g: Geometry, s: Flat, h: Hidden, rdata: Word, unit: AtomicUnit): Flat
    requires g.Ok() && |s.words| == g.Words()
    requires Atomically(h) ==> s.owed.AtomicPending? && g.IsRam(s.owed.req.addr)
  {
    match h
    case NoStep => s
    case DeviceStep => s.(owed := Value(rdata))
    case AtomicStep =>
      var x := RamIx(g, s.owed.req.addr);
      var (w, answer) := unit.run(s.owed.req, s.words[x], s.res);
      Flat(s.words[x := w], Value(answer), unit.reserve(s.owed.req, s.res))
    case EarlyStep => s.(res := unit.reserve(s.owed.req, s.res))
  }

  function Lapsed(s: Flat, lost: bool): Flat { if lost then s.(res := None) else s }

  function Answered(s: Flat, rvalid: bool): Flat { if rvalid then s.(owed := Nothing) else s }

  /** The request offered is taken in. In an invalidate cycle it may be acknowledged, but nothing comes of it. */
  predicate Admits(in_: In, ready: bool) { in_.cpu.Some? && ready && !in_.invalidate }

  /** Memory takes an atomic on RAM that nothing else comes of. */
  predicate TakesUnheard(g: Geometry, in_: In) {
    in_.invalidate && in_.memReady && in_.cpu.Some? && in_.cpu.value.isAmo && g.IsRam(in_.cpu.value.addr)
  }

  /** The flat memory once the answer has left and the new request has come. */
  function Accepted(g: Geometry, s: Flat, in_: In, ready: bool, rvalid: bool): Flat
    requires g.Ok() && |s.words| == g.Words()
  {
    var a := Answered(Lapsed(s, in_.lost), rvalid);
    if Admits(in_, ready) then Accept(g, a, in_.cpu.value) else a
  }

  /** Answers carry the value owed, and at most one request is open. */
  ghost predicate Serves(g: Geometry, s: Flat, s': Flat, in_: In, ready: bool, rvalid: bool, rdata: Word, h: Hidden, unit: AtomicUnit)
  {
    && g.Ok() && |s.words| == |s'.words| == g.Words()
    && (rvalid ==> s.owed == Value(rdata))
    && (in_.cpu.Some? && ready ==> Answered(s, rvalid).owed == Nothing)
    && var t := Accepted(g, s, in_, ready, rvalid);
    && (Atomically(h) ==> t.owed.AtomicPending? && g.IsRam(t.owed.req.addr))
    && (h == DeviceStep ==> t.owed == DevicePending && in_.memRvalid)
    && s' == Lapsed(TakeHidden(g, t, h, in_.memRdata, unit), in_.lost)
  }

  /** One clock edge of the flat memory; a fast load reads the flat word directly. */
  ghost predicate FlatStep(g: Geometry, s: Flat, s': Flat, in_: In, out: Out, h: Hidden, unit: AtomicUnit)
  {
    && Serves(g, s, s', in_, out.ready, out.rvalid, out.rdata, h, unit)
    && (out.fastValid ==>
          in_.fast.Some? && g.IsRam(in_.fast.value.addr)
          && out.fastData == s.words[RamIx(g, in_.fast.value.addr)])
  }

  /** The one request the memory side may have open. */
  datatype Flight = Quiet | Reading(a: nat) | Atomic(answer: Word) | Device

  datatype Bus = Bus(mem: seq<Word>, flight: Flight, res: Option<nat>)

  function BusLapsed(bus: Bus, lost: bool): Bus { if lost then bus.(res := None) else bus }

  /** The memory side takes one request at a time and answers reads from its words. */
  predicate BusOk(g: Geometry, bus: Bus, in_: In) {
    && (in_.memReady ==> bus.flight == Quiet || in_.memRvalid)
    && (in_.memRvalid ==> bus.flight != Quiet)
    && (in_.memRvalid && bus.flight.Reading? && g.IsRamWord(bus.flight.a) && |bus.mem| == g.Words() ==>
          in_.memRdata == bus.mem[bus.flight.a - g.Base()])
    && (in_.memRvalid && bus.flight.Atomic? ==> in_.memRdata == bus.flight.answer)
  }

  /** The memory side after one edge: it takes the driven request if it is ready. */
  function BusNext(g: Geometry, bus: Bus, req: Option<Access>, in_: In, unit: AtomicUnit): Bus
    requires g.Ok() && |bus.mem| == g.Words()
  {
    if req.Some? && in_.memReady then BusTakes(g, bus, req.value, unit)
    else if in_.memRvalid then bus.(flight := Quiet)
    else bus
  }

  /** Memory takes `r`. What an atomic on a device does to the reservation is up to the environment. */
  function BusTakes(g: Geometry, bus: Bus, r: Access, unit: AtomicUnit): Bus
    requires g.Ok() && |bus.mem| == g.Words()
  {
    Bus(BusMem(g, bus.mem, bus.res, r, unit), BusFlight(g, bus.mem, bus.res, r, unit),
        if r.isAmo && g.IsRam(r.addr) then unit.reserve(r, bus.res) else bus.res)
  }

  function BusMem(g: Geometry, mem: seq<Word>, res: Option<nat>, r: Access, unit: AtomicUnit): seq<Word>
    requires g.Ok() && |mem| == g.Words()
  {
    if !g.IsRam(r.addr) then mem
    else
      var x := RamIx(g, r.addr);
      if r.isAmo then mem[x := unit.run(r, mem[x], res).0]
      else if r.wen then mem[x := Merge(mem[x], r.wdata, r.wmask)]
      else mem
  }

  function BusFlight(g: Geometry, mem: seq<Word>, res: Option<nat>, r: Access, unit: AtomicUnit): Flight
    requires g.Ok() && |mem| == g.Words()
  {
    if !g.IsRam(r.addr) then Device
    else if r.isAmo then Atomic(unit.run(r, mem[RamIx(g, r.addr)], res).1)
    else if r.wen then Device
    else Reading(WordNo(r.addr))
  }
}
