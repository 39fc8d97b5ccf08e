/** The data cache clocked together with a memory: its runs are runs of the flat memory. */
module ClockedCache {
  import opened Bytes
  import opened Eei
  import opened DCacheCoherence
  import opened FlatMemory
  import opened DCache
  import opened FlatRuns
  import opened CacheTurns

  /** What processor and memory would like to do in a cycle; what the protocol forbids is held back. */
  datatype Wish = Wish(invalidate: bool, lost: bool, cpu: Option<Access>, fast: Option<FastLoad>, ready: bool, answer: bool, device: Word)

  /** The answer memory gives to the request it has open. */
  function Reply(g: Geometry, bus: Bus, device: Word): Word
    requires g.Ok() && |bus.mem| == g.Words()
  {
    match bus.flight
    case Reading(a) => if g.IsRamWord(a) then bus.mem[a - g.Base()] else device
    case Atomic(w) => w
    case _ => device
  }

  /** The inputs of a cycle. An invalidate waits until nothing is owed, and memory then takes no atomic on RAM. */
  function Inputs(g: Geometry, bus: Bus, open: bool, w: Wish): (in_: In)
    requires g.Ok() && |bus.mem| == g.Words()
    ensures BusOk(g, bus, in_)
    ensures in_.invalidate ==> !open && !TakesUnheard(g, in_)
  {
    var rvalid := w.answer && bus.flight != Quiet;
    var invalidate := w.invalidate && !open;
    var atomic := w.cpu.Some? && w.cpu.value.isAmo && g.IsRam(w.cpu.value.addr);
    var ready := w.ready && (bus.flight == Quiet || rvalid) && !(invalidate && atomic);
    In(invalidate, w.lost, w.cpu, w.fast, ready, rvalid, Reply(g, bus, w.device))
  }

  /** Does the processor wait for an answer after this cycle? */
  predicate OpenNext(open: bool, in_: In, out: Out) {
    if Admits(in_, out.ready) then in_.cpu.value.isAmo || !in_.cpu.value.wen else open && !out.rvalid
  }

  lemma OwedIsOpen(g: Geometry, s: Flat, s': Flat, in_: In, out: Out, h: Hidden, unit: AtomicUnit, open: bool)
    requires FlatStep(g, s, s', in_, out, h, unit) && (!open ==> s.owed == Nothing)
    ensures !OpenNext(open, in_, out) ==> s'.owed == Nothing
  {
    hide RamIx;
  }

  /** Whatever processor and memory wish, the cache makes a run of the flat memory, and memory is what the requests
      it took make of it. */
  method Drive(c: DataCache, wishes: seq<Wish>, unit: AtomicUnit, start: Bus)
      returns (ghost run: seq<Step>, ghost turns: seq<Turn>)
    requires c.Valid() && start == c.bus && c.flat.owed == Nothing
    modifies c, c.valid, c.dirty, c.tags, c.data, c.ring, c.fillData
    ensures c.Valid() && |run| == |turns| == |wishes|
    ensures Run(c.g, run) && Turns(c.writeBack, turns)
    ensures run != [] ==> run[0].before == old(c.flat) && run[|run| - 1].after == c.flat
    ensures turns != [] ==> turns[0].before == old(c.Snap()) && turns[|turns| - 1].after == c.Snap()
  {
    hide Coherent, DataCache.Control, DataCache.Shape, DataCache.Snap, DataCache.FastHits, DataCache.HitsDirty,
      DataCache.NextOf, Edge, BusNext, FlatStep, OpenNext, Inputs, Cacheable;
    var bus, open := start, false;
    run, turns := [], [];
    for n := 0 to |wishes|
      invariant c.Valid() && bus == c.bus && (!open ==> c.flat.owed == Nothing)
      invariant |run| == |turns| == n && Run(c.g, run) && Turns(c.writeBack, turns)
      invariant if n == 0 then c.flat == old(c.flat) && c.Snap() == old(c.Snap())
                else run[0].before == old(c.flat) && run[n - 1].after == c.flat
                     && turns[0].before == old(c.Snap()) && turns[n - 1].after == c.Snap()
    {
      ghost var flat, before := c.flat, c.Snap();
      Sized(c);
      var in_ := Inputs(c.g, bus, open, wishes[n]);
      var out, h := c.Clock(in_, unit);
      OwedIsOpen(c.g, flat, c.flat, in_, out, h, unit, open);
      bus, open := BusLapsed(BusNext(c.g, BusLapsed(bus, in_.lost), out.mem, in_, unit), in_.lost), OpenNext(open, in_, out);
      run := run + [Step(flat, in_, out, h, unit, c.flat)];
      turns := turns + [Turn(before, in_, out.ready, out.mem, c.Snap())];
    }
  }

  lemma Sized(c: DataCache)
    requires c.Valid()
    ensures c.g.Ok() && |c.bus.mem| == c.g.Words()
  {
    hide Coherent, DataCache.Control;
  }
}
