/** LR/SC behind the data cache: what the processor sees when an atomic reaches memory ahead of its time. */
module CachedReservations {
  import opened Bytes
  import opened Eei
  import opened DCacheCoherence
  import opened FlatMemory
  import opened FlatRuns
  import opened AtomicMemory
  import AmoUnit

  /** What the atomic unit makes of the word and the reservation it finds. */
  function RunOn(r: FlatMemory.Access, w: Word, res: Option<nat>): (Word, Word) {
    if Conditional(r) then
      if res == Some(r.addr) then (Merge(w, r.wdata, r.wmask), SC_OK) else (w, SC_FAILED)
    else if Fetches(r) then (Updated(r, w), w)
    else (w, w)
  }

  function ReserveOn(r: FlatMemory.Access, res: Option<nat>): Option<nat> {
    if Reserves(r) then Some(r.addr) else if Conditional(r) then None else res
  }

  const RISCV := AtomicUnit(RunOn, ReserveOn)

  predicate Awaits(g: Geometry, s: Flat, r: FlatMemory.Access) {
    g.Ok() && |s.words| == g.Words() && s.owed == AtomicPending(r) && r.isAmo && g.IsRam(r.addr)
  }

  /** Reaching memory twice makes a difference exactly for a store-conditional that would have succeeded. */
  lemma EarlyHarmless(g: Geometry, s: Flat, r: FlatMemory.Access, rdata: Word)
    requires Awaits(g, s, r)
    ensures TakeHidden(g, TakeHidden(g, s, EarlyStep, rdata, RISCV), AtomicStep, rdata, RISCV) == TakeHidden(g, s, AtomicStep, rdata, RISCV)
            <==> !(Conditional(r) && s.res == Some(r.addr))
  {
    hide RamIx, Updated;
    var t := TakeHidden(g, s, EarlyStep, rdata, RISCV);
    assert t.words == s.words && t.owed == s.owed && t.res == ReserveOn(r, s.res);
    var x := RamIx(g, r.addr);
    assert TakeHidden(g, t, AtomicStep, rdata, RISCV).owed == Value(RunOn(r, s.words[x], t.res).1);
    assert TakeHidden(g, s, AtomicStep, rdata, RISCV).owed == Value(RunOn(r, s.words[x], s.res).1);
  }

  /** A run whose atomics follow the ISA. */
  ghost predicate RiscvRun(g: Geometry, run: seq<FlatRuns.Step>) {
    Run(g, run) && forall i | 0 <= i < |run| :: run[i].unit == RISCV
  }

  /** A store-conditional that has run early stays pending without a reservation until it takes effect. */
  lemma {:induction false} StillDoomed(g: Geometry, run: seq<FlatRuns.Step>, r: FlatMemory.Access, j: nat, i: nat)
    requires RiscvRun(g, run) && j < i < |run| && Conditional(r) && g.Ok() && g.IsRam(r.addr)
    requires run[j].hidden == EarlyStep && run[j].after.owed == AtomicPending(r)
    requires forall k | j < k < i :: run[k].hidden != AtomicStep
    ensures run[i].before.owed == AtomicPending(r) && run[i].before.res == None
    ensures run[i].before.words == run[j].after.words
    decreases i
  {
    hide RamIx, RunOn;
    if j + 1 < i { StillDoomed(g, run, r, j, i - 1); }
    var s := run[i - 1];
    assert FlatStep(g, s.before, s.after, s.in_, s.out, s.hidden, s.unit);
  }

  /** So it reports failure and writes nothing, whatever was reserved when it was issued. */
  lemma EarlyConditionalFails(g: Geometry, run: seq<FlatRuns.Step>, r: FlatMemory.Access, j: nat, i: nat)
    requires RiscvRun(g, run) && j < i < |run| && Conditional(r) && g.Ok() && g.IsRam(r.addr)
    requires run[j].hidden == EarlyStep && run[j].after.owed == AtomicPending(r)
    requires run[i].hidden == AtomicStep && forall k | j < k < i :: run[k].hidden != AtomicStep
    ensures run[i].after.owed == Value(SC_FAILED) && run[i].after.words == run[j].after.words
  {
    hide RamIx;
    StillDoomed(g, run, r, j, i);
    var s := run[i];
    assert FlatStep(g, s.before, s.after, s.in_, s.out, s.hidden, s.unit);
  }

  // ---- the atomic unit as the memory side of the cache ----

  /** The pending request as good as done. A store-conditional is decided only when it is performed, but the cache
      hears of a decision when the request is taken; `doomed` is the decision it will be. */
  ghost function Settled(s: Atomic, doomed: bool): Atomic {
    if !s.owed.Pending? then s
    else if Conditional(s.owed.req) then Perform(s.(reserved := if doomed then None else Some(s.owed.req.addr)), s.owed.req)
    else Perform(s, s.owed.req)
  }

  function InRam(g: Geometry, res: Option<nat>): Option<nat> {
    if res.Some? && g.IsRam(res.value) then res else None
  }

  ghost predicate SameWords(g: Geometry, words: seq<Word>, m: Mem)
    requires g.Ok() && |words| == g.Words()
  {
    forall a: nat | g.IsRamWord(a) :: words[a - g.Base()] == m[a]
  }

  lemma SameUpdate(g: Geometry, words: seq<Word>, m: Mem, k: nat, w: Word)
    requires g.Ok() && |words| == g.Words() && SameWords(g, words, m)
    ensures SameWords(g, if g.IsRamWord(k) then words[k - g.Base() := w] else words, m[k := w])
  {
  }

  /** The cache's view of memory is the atomic memory with the pending request done. */
  ghost predicate Mirrors(g: Geometry, bus: Bus, s: Atomic, doomed: bool) {
    var t := Settled(s, doomed);
    && g.Ok() && |bus.mem| == g.Words() && SameWords(g, bus.mem, t.mem)
    && bus.res == InRam(g, t.reserved)
    && (bus.flight == Quiet <==> s.owed == AtomicMemory.Owed.Nothing)
    && (bus.flight.Reading? && g.IsRamWord(bus.flight.a) ==> t.owed == Answer(t.mem[bus.flight.a]))
    && (bus.flight.Atomic? ==> t.owed == Answer(bus.flight.answer))
  }

  /** Requests that the cache's view treats as the loss of a reservation: LR and SC on a device, and an SC that will fail. */
  predicate TakesReservation(g: Geometry, r: FlatMemory.Access, doomed: bool) {
    if g.IsRam(r.addr) then Conditional(r) && doomed else Conditional(r) || Reserves(r)
  }

  /** What the bus protocol of the cache sees of a cycle of the atomic unit. */
  predicate SeenAs(g: Geometry, in_: FlatMemory.In, ready: bool, answer: Option<Word>, clear: bool, taken: Option<FlatMemory.Access>, doomed: bool) {
    && in_.memReady == ready && in_.memRvalid == answer.Some? && (answer.Some? ==> in_.memRdata == answer.value)
    && (in_.lost <==> clear || (taken.Some? && TakesReservation(g, taken.value, doomed)))
  }

  /** The foretold decision of a store-conditional is the one that is made, and was possible when it was taken. */
  ghost predicate Foretold(c: Atomic, taken: Option<FlatMemory.Access>, performs: bool, doomed: bool) {
    c.owed.Pending? && Conditional(c.owed.req) ==>
      && (performs ==> (doomed <==> !Succeeds(c, c.owed.req)))
      && (taken.Some? && !doomed ==> Succeeds(c, c.owed.req))
  }

  /** The atomic memory after the answer, the new request and the lost reservation of a cycle. */
  ghost function Mid(s: Atomic, taken: Option<FlatMemory.Access>, answer: Option<Word>, clear: bool): Atomic {
    var a := if answer.Some? then s.(owed := AtomicMemory.Owed.Nothing) else s;
    var b := if taken.Some? then Take(a, taken.value) else a;
    if clear then b.(reserved := None) else b
  }

  /** An answer leaves. */
  lemma AnswerLeaves(g: Geometry, bus: Bus, s: Atomic, doomed: bool, doomed': bool, w: Word)
    requires Mirrors(g, bus, s, doomed) && (s.owed == Done || s.owed == Answer(w))
    ensures Mirrors(g, bus.(flight := Quiet), s.(owed := AtomicMemory.Owed.Nothing), doomed')
    ensures bus.flight.Reading? && g.IsRamWord(bus.flight.a) ==> w == bus.mem[bus.flight.a - g.Base()]
    ensures bus.flight.Atomic? ==> w == bus.flight.answer
  {
  }

  /** The reservation is lost. */
  lemma ReservationLeaves(g: Geometry, bus: Bus, s: Atomic, doomed: bool)
    requires Mirrors(g, bus, s, doomed)
    ensures Mirrors(g, bus.(res := None), s.(reserved := None), doomed)
  {
    hide Updated;
    var t, t' := Settled(s, doomed), Settled(s.(reserved := None), doomed);
    assert t'.mem == t.mem && t'.owed == t.owed && t'.reserved == None;
  }

  lemma RamIs(g: Geometry, addr: nat)
    requires g.Ok() && g.IsRam(addr)
    ensures RamIx(g, addr) == WordOf(addr) - g.Base()
  {
  }

  lemma OffRam(g: Geometry, addr: nat)
    requires g.Ok() && !g.IsRam(addr)
    ensures !g.IsRamWord(WordOf(addr))
  {
    var begin, bytes := g.begin / 32, g.bytes / 32;
    assert g.begin == 32 * begin && g.bytes == 32 * bytes;
    assert g.Base() == 4 * begin && g.Words() == 4 * bytes by { Quarters(begin); Quarters(bytes); }
    OutsideWords(addr, addr / 8, begin, bytes);
    hide Geometry.Ok, Geometry.Base, Geometry.Words;
  }

  lemma Quarters(n: nat)
    ensures 32 * n / 8 == 4 * n
  {
  }

  lemma OutsideWords(addr: nat, k: nat, begin: nat, count: nat)
    requires 8 * k <= addr < 8 * k + 8 && !(32 * begin <= addr < 32 * begin + 32 * count)
    ensures !(4 * begin <= k < 4 * begin + 4 * count)
  {
  }

  lemma WordIs(g: Geometry, bus: Bus, s: Atomic, k: nat)
    requires Mirrors(g, bus, s, false) && !s.owed.Pending? && g.IsRamWord(k)
    ensures bus.mem[k - g.Base()] == s.mem[k]
  {
  }

  /** A plain access to RAM is taken. */
  lemma PlainTaken(g: Geometry, bus: Bus, s: Atomic, r: FlatMemory.Access, clear: bool, doomed: bool, lost: bool)
    requires Mirrors(g, bus, s, false) && s.owed == AtomicMemory.Owed.Nothing && g.IsRam(r.addr) && !r.isAmo
    requires lost <==> clear || TakesReservation(g, r, doomed)
    requires Conditional(r) && !doomed ==> !clear && s.reserved == Some(r.addr)
    ensures Mirrors(g, BusLapsed(BusTakes(g, BusLapsed(bus, lost), r, RISCV), lost),
                    if clear then Take(s, r).(reserved := None) else Take(s, r), doomed)
  {
    hide Updated, Merge, RunOn, ReserveOn, RamIx, SameWords;
    var k := WordOf(r.addr);
    assert g.IsRamWord(k) && RamIx(g, r.addr) == k - g.Base() by { RamWord(g, r.addr); RamIs(g, r.addr); }
    assert s.mem[k] == bus.mem[k - g.Base()] by { WordIs(g, bus, s, k); }
    SameUpdate(g, bus.mem, s.mem, k, Merge(s.mem[k], r.wdata, r.wmask));
  }

  /** An atomic on RAM is taken. */
  lemma AtomicTaken(g: Geometry, bus: Bus, s: Atomic, r: FlatMemory.Access, clear: bool, doomed: bool, lost: bool)
    requires Mirrors(g, bus, s, false) && s.owed == AtomicMemory.Owed.Nothing && g.IsRam(r.addr) && r.isAmo
    requires lost <==> clear || TakesReservation(g, r, doomed)
    requires Conditional(r) && !doomed ==> !clear && s.reserved == Some(r.addr)
    ensures Mirrors(g, BusLapsed(BusTakes(g, BusLapsed(bus, lost), r, RISCV), lost),
                    if clear then Take(s, r).(reserved := None) else Take(s, r), doomed)
  {
    hide Updated, Merge, RamIx, SameWords;
    var k := WordOf(r.addr);
    assert g.IsRamWord(k) && RamIx(g, r.addr) == k - g.Base() by { RamWord(g, r.addr); RamIs(g, r.addr); }
    assert s.mem[k] == bus.mem[k - g.Base()] by { WordIs(g, bus, s, k); }
    SameUpdate(g, bus.mem, s.mem, k, RunOn(r, s.mem[k], if lost then None else bus.res).0);
    assert bus.mem[k - g.Base() := s.mem[k]] == bus.mem;
  }

  /** A request for a device is taken. */
  lemma DeviceTaken(g: Geometry, bus: Bus, s: Atomic, r: FlatMemory.Access, clear: bool, doomed: bool, lost: bool)
    requires Mirrors(g, bus, s, false) && s.owed == AtomicMemory.Owed.Nothing && !g.IsRam(r.addr)
    requires lost <==> clear || TakesReservation(g, r, doomed)
    ensures Mirrors(g, BusLapsed(BusTakes(g, BusLapsed(bus, lost), r, RISCV), lost),
                    if clear then Take(s, r).(reserved := None) else Take(s, r), doomed)
  {
    hide Merge, RunOn, SameWords;
    var k := WordOf(r.addr);
    assert !g.IsRamWord(k) by { OffRam(g, r.addr); }
    SameUpdate(g, bus.mem, s.mem, k, Merge(s.mem[k], r.wdata, r.wmask));
    SameUpdate(g, bus.mem, s.mem, k, Updated(r, s.mem[k]));
  }

  lemma FlightIs(g: Geometry, bus: Bus, s: Atomic, doomed: bool)
    requires Mirrors(g, bus, s, doomed)
    ensures g.Ok() && |bus.mem| == g.Words() && (bus.flight == Quiet <==> s.owed == AtomicMemory.Owed.Nothing)
  {
  }

  predicate Undecided(s: Atomic) { s.owed.Pending? && Conditional(s.owed.req) }

  /** With no store-conditional pending there is nothing to foretell. */
  lemma NothingForetold(g: Geometry, bus: Bus, s: Atomic, doomed: bool, doomed': bool)
    requires Mirrors(g, bus, s, doomed) && !Undecided(s)
    ensures Mirrors(g, bus, s, doomed')
  {
  }

  /** What is foretold comes true. */
  lemma PerformsAsSettled(g: Geometry, bus: Bus, m: Atomic, doomed: bool)
    requires Mirrors(g, bus, m, doomed) && m.owed.Pending? && (Conditional(m.owed.req) ==> (doomed <==> !Succeeds(m, m.owed.req)))
    ensures Mirrors(g, bus, Perform(m, m.owed.req), doomed)
  {
    hide Updated;
    assert Settled(Perform(m, m.owed.req), doomed) == Settled(m, doomed);
  }

  /** A step of the atomic unit's memory is a cycle of the cache's bus: the answers are those the protocol asks for, and
      the mirror is kept. */
  lemma UnitIsMemory(g: Geometry, bus: Bus, s: Atomic, s': Atomic, doomed: bool, doomed': bool, req: Option<FlatMemory.Access>,
                     ready: bool, answer: Option<Word>, clear: bool, performs: bool, in_: FlatMemory.In)
    requires Mirrors(g, bus, s, doomed) && (Undecided(s) ==> doomed' == doomed)
    requires AtomicMemory.Step(s, s', if ready then req else None, answer, clear, performs)
    requires ready ==> answer.Some? || s.owed == AtomicMemory.Owed.Nothing
    requires SeenAs(g, in_, ready, answer, clear, if ready then req else None, doomed')
    requires Foretold(Mid(s, if ready then req else None, answer, clear), if ready then req else None, performs, doomed')
    ensures BusOk(g, bus, in_)
    ensures Mirrors(g, BusLapsed(BusNext(g, BusLapsed(bus, in_.lost), req, in_, RISCV), in_.lost), s', doomed')
  {
    hide Mirrors, Settled, Updated, RamIx, Perform, BusMem, BusFlight;
    var taken := if ready then req else None;
    var a := if answer.Some? then s.(owed := AtomicMemory.Owed.Nothing) else s;
    var bus' := if answer.Some? then bus.(flight := Quiet) else bus;
    FlightIs(g, bus, s, doomed);
    var bus1 := BusLapsed(BusNext(g, BusLapsed(bus, in_.lost), req, in_, RISCV), in_.lost);
    if answer.Some? {
      AnswerLeaves(g, bus, s, doomed, doomed', answer.value);
    } else if !Undecided(s) {
      NothingForetold(g, bus, s, doomed, doomed');
    }
    var m := Mid(s, taken, answer, clear);
    if taken.Some? {
      FlightIs(g, bus', a, doomed');
      NothingForetold(g, bus', a, doomed', false);
      assert BusTakes(g, BusLapsed(bus, in_.lost), req.value, RISCV) == BusTakes(g, BusLapsed(bus', in_.lost), req.value, RISCV);
      if !g.IsRam(req.value.addr) { DeviceTaken(g, bus', a, req.value, clear, doomed', in_.lost); }
      else if req.value.isAmo { AtomicTaken(g, bus', a, req.value, clear, doomed', in_.lost); }
      else { PlainTaken(g, bus', a, req.value, clear, doomed', in_.lost); }
    } else if clear {
      ReservationLeaves(g, bus', a, doomed');
    }
    assert Mirrors(g, bus1, m, doomed');
    if performs { PerformsAsSettled(g, bus1, m, doomed'); }
  }

  // ---- whole runs of the atomic unit ----

  /** One edge of the atomic unit's memory, with the request offered to it. */
  datatype Cycle = Cycle(before: Atomic, req: Option<FlatMemory.Access>, ready: bool, answer: Option<Word>, clear: bool,
                         performs: bool, after: Atomic)
  {
    function Taken(): Option<FlatMemory.Access> { if ready then req else None }

    ghost function Middle(): Atomic { Mid(before, Taken(), answer, clear) }
  }

  ghost predicate UnitCycle(c: Cycle) {
    && AtomicMemory.Step(c.before, c.after, c.Taken(), c.answer, c.clear, c.performs)
    && (c.ready ==> c.answer.Some? || c.before.owed == AtomicMemory.Owed.Nothing)
  }

  ghost predicate UnitRun(cs: seq<Cycle>) {
    cs != [] ==> UnitCycle(cs[0]) && (1 < |cs| ==> cs[1].before == cs[0].after) && UnitRun(cs[1..])
  }

  lemma {:induction false} RunGoesOn(cs: seq<Cycle>, c: Cycle)
    requires UnitRun(cs) && UnitCycle(c) && (cs != [] ==> cs[|cs| - 1].after == c.before)
    ensures UnitRun(cs + [c])
  {
    hide UnitCycle;
    var all := cs + [c];
    if cs == [] {
      assert all == [c] && all[1..] == [];
    } else {
      RunGoesOn(cs[1..], c);
      assert all[1..] == cs[1..] + [c];
    }
  }

  /** An edge of the unit's registers goes on with any run so far. */
  method Serve(unit: AmoUnit.Unit, c: AmoUnit.In, ghost cs: seq<Cycle>) returns (out: AmoUnit.Out, ghost cs': seq<Cycle>)
    requires unit.Valid() && AmoUnit.LowerOk(unit.b, c) && (c.cpu.Some? ==> WellFormed(c.cpu.value))
    requires UnitRun(cs) && (cs != [] ==> cs[|cs| - 1].after == unit.s)
    modifies unit
    ensures unit.Valid() && UnitRun(cs') && |cs'| == |cs| + 1 && cs == cs'[..|cs|]
    ensures cs'[|cs|].before == old(unit.s) && cs'[|cs|].after == unit.s
    ensures cs'[|cs|].req == c.cpu && cs'[|cs|].ready == out.ready && cs'[|cs|].clear == c.clear
    ensures cs'[|cs|].answer == if out.rvalid then Some(out.rdata) else None
  {
    hide UnitRun, AmoUnit.LowerOk, WellFormed, AtomicMemory.Step, AmoUnit.UnitOk;
    ghost var r, s := unit.r, unit.s;
    out := unit.Clock(c);
    ghost var x := Cycle(s, c.cpu, out.ready, if out.rvalid then Some(out.rdata) else None, c.clear, AmoUnit.Performs(r, c), unit.s);
    RunGoesOn(cs, x);
    cs' := cs + [x];
  }

  /** Will the store-conditional pending in the first cycle fail? If the run ends before it is performed, as things stand. */
  ghost predicate Doomed(cs: seq<Cycle>)
    requires cs != []
  {
    var m := cs[0].Middle();
    Undecided(m) && if cs[0].performs || |cs| == 1 then !Succeeds(m, m.owed.req) else Doomed(cs[1..])
  }

  /** While it is pending nothing is answered or taken, and its reservation can only be lost. */
  lemma StaysPending(c: Cycle)
    requires UnitCycle(c) && Undecided(c.before)
    ensures c.answer.None? && c.Taken().None? && c.Middle().owed == c.before.owed
    ensures Succeeds(c.Middle(), c.before.owed.req) ==> Succeeds(c.before, c.before.owed.req)
  {
  }

  lemma NotPerformed(c: Cycle)
    requires UnitCycle(c) && Undecided(c.after)
    ensures !c.performs && c.after == c.Middle()
  {
    hide Updated, Merge;
  }

  /** The fate of a store-conditional does not change while it waits. */
  lemma FateCarries(cs: seq<Cycle>)
    requires UnitRun(cs) && 1 < |cs| && Undecided(cs[1].before)
    ensures Doomed(cs) == Doomed(cs[1..])
  {
    hide AtomicMemory.Step, Mid;
    NotPerformed(cs[0]);
  }

  /** One that will succeed could succeed all along. */
  lemma {:induction false} SpareTheSpared(cs: seq<Cycle>)
    requires UnitRun(cs) && cs != [] && Undecided(cs[0].Middle()) && !Doomed(cs)
    ensures Succeeds(cs[0].Middle(), cs[0].Middle().owed.req)
  {
    if !cs[0].performs && 1 < |cs| {
      assert cs[1].before == cs[0].Middle();
      StaysPending(cs[1..][0]);
      SpareTheSpared(cs[1..]);
    }
  }

  /** The fate is the answer: the store-conditional taken in the first cycle and performed in the last is doomed if
      and only if it reports failure. */
  lemma {:induction false} FateIsAnswer(cs: seq<Cycle>)
    requires UnitRun(cs) && cs != [] && Undecided(cs[0].Middle())
    requires forall i | 0 <= i < |cs| :: cs[i].performs <==> i == |cs| - 1
    ensures Doomed(cs) <==> cs[|cs| - 1].after.owed == Answer(SC_FAILED)
  {
    hide Updated;
    if 1 < |cs| {
      assert cs[1].before == cs[0].Middle();
      StaysPending(cs[1..][0]);
      FateIsAnswer(cs[1..]);
    }
  }

  function BusAfter(g: Geometry, bus: Bus, req: Option<FlatMemory.Access>, in_: FlatMemory.In): Bus
    requires g.Ok() && |bus.mem| == g.Words()
  {
    BusLapsed(BusNext(g, BusLapsed(bus, in_.lost), req, in_, RISCV), in_.lost)
  }

  /** What the cache sees of a run is a run of its bus protocol: its wires are those of the unit, memory and reservation
      mirror the unit's, and the reservation is lost when the unit's is and when a store-conditional is taken that will fail. */
  ghost predicate BusRun(g: Geometry, bus: Bus, cs: seq<Cycle>, ins: seq<FlatMemory.In>)
    requires |cs| == |ins|
    decreases |cs|
  {
    && g.Ok() && |bus.mem| == g.Words()
    && (cs != [] ==>
          && SeenAs(g, ins[0], cs[0].ready, cs[0].answer, cs[0].clear, cs[0].Taken(), Doomed(cs))
          && BusOk(g, bus, ins[0])
          && Mirrors(g, BusAfter(g, bus, cs[0].req, ins[0]), cs[0].after, Doomed(cs))
          && BusRun(g, BusAfter(g, bus, cs[0].req, ins[0]), cs[1..], ins[1..]))
  }

  /** The unit is the memory side of the cache in every run: at every edge it keeps the bus protocol and the mirror. */
  lemma {:induction false} UnitServesCache(g: Geometry, bus: Bus, cs: seq<Cycle>, doomed: bool) returns (ins: seq<FlatMemory.In>)
    requires UnitRun(cs) && cs != [] && Mirrors(g, bus, cs[0].before, doomed)
    requires Undecided(cs[0].before) ==> doomed == Doomed(cs)
    ensures |ins| == |cs| && BusRun(g, bus, cs, ins)
    decreases |cs|
  {
    hide Mirrors, AtomicMemory.Step, BusNext, BusOk, Perform, Mid;
    var c, fate := cs[0], Doomed(cs);
    var in_ := FlatMemory.In(false, c.clear || (c.Taken().Some? && TakesReservation(g, c.Taken().value, fate)), None, None,
                             c.ready, c.answer.Some?, if c.answer.Some? then c.answer.value else ZERO_WORD);
    FlightIs(g, bus, c.before, doomed);
    WellForetold(cs);
    UnitIsMemory(g, bus, c.before, c.after, doomed, fate, c.req, c.ready, c.answer, c.clear, c.performs, in_);
    var bus' := BusAfter(g, bus, c.req, in_);
    FlightIs(g, bus', c.after, fate);
    var rest := [];
    if 1 < |cs| {
      if Undecided(cs[1].before) { FateCarries(cs); }
      rest := UnitServesCache(g, bus', cs[1..], fate);
    }
    ins := [in_] + rest;
    assert ins[1..] == rest;
  }

  lemma WellForetold(cs: seq<Cycle>)
    requires UnitRun(cs) && cs != []
    ensures Foretold(cs[0].Middle(), cs[0].Taken(), cs[0].performs, Doomed(cs))
  {
    hide AtomicMemory.Step, Perform;
    if Undecided(cs[0].Middle()) && !Doomed(cs) { SpareTheSpared(cs); }
  }
}
