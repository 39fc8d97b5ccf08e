/** Address translation: bare and unsupported modes, TLB hits, walks, and the answers held for a slow client. */
module AddressTranslation {
  import opened Eei
  import opened Sv39Spec
  import opened TlbEntries
  import TlbUnit
  import PageWalk

  datatype Phase = Idle | PtwWait | Refill | Response

  /** A request together with the translation registers it was made under. */
  datatype Asked = Asked(a: Access, satp: Satp)

  const NO_REQUEST := Asked(PageWalk.NO_ACCESS, Satp(0, 0, 0))

  /** The leaf kept between the end of a walk and the refill. */
  datatype Leaving = Leaving(valid: bool, pte: Pte, level: nat)

  const NO_LEAF := Leaving(false, NO_PTE, 0)

  /** The translator's own registers. */
  datatype Regs = Regs(phase: Phase, pending: Asked, started: bool, result: Translation, leaf: Leaving)

  const RESET := Regs(Idle, NO_REQUEST, false, Translation(0, false, NONE, NoCause, 0), NO_LEAF)

  function Unsupported(r: Asked): bool { r.satp.mode != 8 && !Bare(r.a, r.satp) }

  /** The answer given without a walk. */
  function FastAnswer(r: Asked, hit: bool, t: Translation): Translation {
    if Bare(r.a, r.satp) then Translation(r.a.va, false, NONE, NoCause, r.a.va)
    else if Unsupported(r) then Translation(0, true, ADDR_INVALID, PageFault(r.a.kind), r.a.va)
    else t
  }

  predicate Right(w: World, r: Asked, t: Translation) { Agree(t, Translate(w, r.a, r.satp)) }

  /** What an edge does to the registers, seen from the client: `taken` is the handshake of a request, `rsp` the
      answer shown before the edge. */
  predicate Moves(r: Regs, r': Regs, flush: bool, taken: bool, q: Asked, rsp: Option<Translation>, rspReady: bool) {
    && (flush || (r.phase == Idle && !taken) ==> r'.phase == Idle)
    && (taken ==>
          r'.phase == (if rsp.None? then PtwWait else if rspReady then Idle else Response) && r'.pending == q)
    && (!flush && r.phase in {PtwWait, Refill} ==> r'.phase != Idle && r'.pending == r.pending)
    && (!flush && r.phase == Response ==>
          r'.phase == (if rspReady then Idle else Response) && r'.pending == r.pending)
  }

  /** Where the walker may be while the translator is in a phase. */
  predicate InStep(r: Regs, s: PageWalk.State, q: Access, root: nat) {
    match r.phase
    case PtwWait =>
      if r.started then s in {PageWalk.Req, PageWalk.WaitResp, PageWalk.Check, PageWalk.Done}
                        && q == r.pending.a && root == r.pending.satp.ppn
      else s == PageWalk.Idle
    case _ => s in {PageWalk.Idle, PageWalk.DrainResp}
  }

  /** What the registers promise; `strayed` marks an answer taken from the TLB for a non-canonical address. */
  predicate RegsOk(w: World, r: Regs, strayed: bool) {
    && (r.phase in {PtwWait, Refill} ==>
          NeedsWalk(r.pending.a, r.pending.satp) && InSpace(w, r.pending.a, r.pending.satp) && !strayed)
    && (r.phase == Refill ==> r.leaf.valid)
    && (r.phase == Refill ==>
          Walk(w, Vpn(r.pending.a.va), r.pending.satp.ppn, 2) == Leaf(r.leaf.pte, r.leaf.level)
          && r.leaf.pte.ppn % PagesIn(r.leaf.level) == 0)
    && (r.phase in {Refill, Response} ==> (Right(w, r.pending, r.result) <==> !strayed))
  }

  /** A read is either on the bus or was denied one edge ago, never both. */
  predicate ReadsOk(flight: PageWalk.Flight, onBus: bool, denied: bool, w: World) {
    && (flight.Flight? <==> onBus || denied) && !(onBus && denied)
    && (flight.Flight? && flight.current ==> (denied <==> !w.allow(flight.addr)))
  }

  lemma FastIsRight(w: World, r: Asked, hit: bool, t: Translation)
    requires !NeedsWalk(r.a, r.satp)
    ensures Right(w, r, FastAnswer(r, hit, t))
  {
  }

  lemma WalkIsRight(w: World, r: Asked, t: Translation)
    requires NeedsWalk(r.a, r.satp) && Agree(t, Direct(w, r.a, r.satp.ppn))
    ensures Right(w, r, t)
  {
    hide Direct;
  }

  lemma HitOrFast(w: World, r: Asked, hit: bool, t: Translation)
    requires !NeedsWalk(r.a, r.satp) || (hit && (Right(w, r, t) <==> Canonical(r.a.va)))
    ensures Right(w, r, FastAnswer(r, hit, t)) <==> !(NeedsWalk(r.a, r.satp) && !Canonical(r.a.va))
  {
    hide Right, Canonical;
    if !NeedsWalk(r.a, r.satp) { FastIsRight(w, r, hit, t); }
  }

  /** What the walker is told about a read is what the tables and the protection settings say. */
  lemma AnswerFits(f: PageWalk.Flight, onBus: bool, denied: bool, w: World, rvalid: bool, error: bool, data: Pte)
    requires ReadsOk(f, onBus, denied, w) && (rvalid ==> onBus)
    requires rvalid && f.current ==> error == !w.mapped(f.addr) && (!error ==> data == w.pte(f.addr))
    ensures rvalid || denied ==> f.Flight?
    ensures (rvalid || denied) && f.current ==>
      (error || denied) == !w.Readable(f.addr) && (!(error || denied) ==> data == w.pte(f.addr))
  {
  }

  /** The bookkeeping of reads over one edge. */
  lemma ReadsStep(f: PageWalk.Flight, onBus: bool, denied: bool, w: World, w': World, flush: bool,
                  req: bool, addr: nat, allow: bool, memReady: bool, rvalid: bool, f': PageWalk.Flight)
    requires ReadsOk(f, onBus, denied, w) && (rvalid ==> onBus) && (req ==> !f.Flight?)
    requires allow == w.allow(addr)
    requires w' != w && !flush ==> !req && !(f.Flight? && f.current)
    requires f' == if rvalid || denied then PageWalk.Quiet
                   else if f.Flight? then PageWalk.Flight(f.addr, f.current && !flush)
                   else if req && (if allow then memReady else !flush) then PageWalk.Flight(addr, !flush)
                   else PageWalk.Quiet
    ensures ReadsOk(f', if rvalid then false else onBus || (req && allow && memReady), !flush && req && !allow, w')
  {
  }

  function RefillEntry(r: Regs): Entry { EntryFor(r.pending.a.va, r.pending.satp.asid, r.leaf.pte, r.leaf.level) }

  /** The refill entry is a true claim about the tables. */
  lemma RefillFits(w: World, r: Regs, strayed: bool)
    requires Sane(w) && RegsOk(w, r, strayed) && r.phase == Refill
    ensures r.leaf.valid && RefillEntry(r).valid && EntryOk(w, RefillEntry(r))
  {
    hide Walk, Vpn, PagesIn, EntryOk, Sane;
    RefillOk(w, r.pending.a.va, r.pending.satp.asid, r.leaf.pte, r.leaf.level);
  }

  /** What the end of a walk leaves in the registers. */
  function AfterWalk(r: Regs, report: PageWalk.Report): Regs {
    Regs(if report.t.fault then Response else Refill, r.pending, r.started, report.t,
         Leaving(report.leafValid && !report.t.fault, report.leafPte, report.leafLevel))
  }

  lemma AfterWalkOk(w: World, r: Regs, report: PageWalk.Report)
    requires RegsOk(w, r, false) && r.phase == PtwWait
    requires PageWalk.Reports(w, r.pending.satp.ppn, r.pending.a, report)
    ensures RegsOk(w, AfterWalk(r, report), false)
  {
    hide Walk, Vpn, PagesIn, Direct, InSpace;
    WalkIsRight(w, r.pending, report.t);
  }

  lemma IdleOk(w: World, r: Regs, strayed: bool)
    requires r.phase == Idle
    ensures RegsOk(w, r, strayed)
  {
  }

  lemma HeldIsRight(w: World, r: Regs, strayed: bool)
    requires RegsOk(w, r, strayed) && r.phase == Response
    ensures Right(w, r.pending, r.result) <==> !strayed
  {
    hide Right;
  }

  /** Where the walker is, as far as the world may change under it. */
  lemma WalkerFacts(w: World, r: Regs, root: nat, k: PageWalk.Walker, f: PageWalk.Flight)
    requires PageWalk.WalkerOk(w, root, k, f) && InStep(r, k.state, k.q, root)
    ensures k.state == PageWalk.Req ==> !f.Flight?
    ensures r.phase != PtwWait ==> k.state in {PageWalk.Idle, PageWalk.DrainResp} && !(f.Flight? && f.current)
    ensures r.phase == PtwWait && k.state == PageWalk.Done ==> PageWalk.Reports(w, r.pending.satp.ppn, r.pending.a, k.report)
    ensures r.phase == PtwWait && r.started ==> 0 < PageWalk.EdgesLeft(k)
  {
    hide PageWalk.Reports, PageWalk.OnPath, PteAddr, Vpn;
  }

  class Translator {
    const tlb: TlbUnit.Tlb
    const ptw: PageWalk.Ptw
    var r: Regs
    var pmpFaultPending: bool
    /** The page tables and settings in force, whether a read is on the bus, and whether the pending answer
        came from the TLB for a non-canonical address. */
    ghost var world: World
    ghost var onBus: bool
    ghost var strayed: bool

    ghost predicate Valid()
      reads this, tlb, tlb.entries, ptw
    {
      && Sane(world)
      && tlb.Valid(world)
      && ptw.Valid(world)
      && InStep(r, ptw.state, ptw.q, ptw.root)
      && RegsOk(world, r, strayed)
      && ReadsOk(ptw.flight, onBus, pmpFaultPending, world)
    }

    /** The request accepted and not yet answered. */
    ghost function Pending(): Option<Asked>
      reads this
    {
      if r.phase == Idle then None else Some(r.pending)
    }

    constructor (entryCount: nat, ghost w: World)
      requires 0 < entryCount && Sane(w)
      ensures Valid() && fresh(tlb) && fresh(tlb.entries) && fresh(ptw) && Pending() == None
    {
      tlb := new TlbUnit.Tlb(entryCount, w);
      ptw := new PageWalk.Ptw(w);
      r, pmpFaultPending := RESET, false;
      world, onBus, strayed := w, false, false;
    }

    /** Edges to the end of the answer, on edges on which protection, memory and the client do their part. */
    ghost function EdgesLeft(): nat
      reads this, ptw
    {
      match r.phase
      case Idle => 0
      case Response => 1
      case Refill => 2
      case PtwWait => 2 + if r.started then PageWalk.EdgesLeft(ptw.View()) else 12
    }

    ghost predicate Moving(allow: bool, memReady: bool, memRvalid: bool)
      reads this, ptw
    {
      && (ptw.state == PageWalk.Req ==> !allow || memReady)
      && (ptw.state == PageWalk.WaitResp ==> memRvalid || pmpFaultPending)
    }

    ghost predicate Advances(flush: bool, rspReady: bool, allow: bool, memReady: bool, memRvalid: bool)
      reads this, ptw
    {
      !flush && r.phase != Idle && Moving(allow, memReady, memRvalid) && (r.phase == Response ==> rspReady)
    }

    ghost predicate Hits(q: Asked)
      reads this, tlb, tlb.entries
    {
      NeedsWalk(q.a, q.satp) && exists e :: e in tlb.entries[..] && MatchesLookup(e, Vpn(q.a.va), q.satp.asid)
    }

    /** The outputs of a cycle before its edge: whether a request is taken, and the answer shown if any. */
    method Outputs(flush: bool, tlbFlush: bool, reqValid: bool, q: Asked)
        returns (hit: bool, ready: bool, rsp: Option<Translation>)
      requires Valid() && (reqValid ==> InSpace(world, q.a, q.satp))
      ensures hit == (r.phase == Idle && reqValid && !flush && !tlbFlush && Hits(q))
      ensures reqValid ==>
        (ready <==> r.phase == Idle && !flush && !tlbFlush
                    && (NeedsWalk(q.a, q.satp) ==> Hits(q) || ptw.state == PageWalk.Idle))
      ensures rsp.Some? <==> r.phase == Response || (reqValid && ready && (NeedsWalk(q.a, q.satp) ==> hit))
      ensures r.phase == Response ==> rsp == Some(r.result)
      ensures r.phase != Response && rsp.Some? ==>
        (Right(world, q, rsp.value) <==> !(NeedsWalk(q.a, q.satp) && !Canonical(q.a.va)))
    {
      hide TlbEntries.AllOk, KeysApart, PageWalk.WalkerOk, Sane, RegsOk, ReadsOk, Agree, Translate, Vpn, Canonical,
        InSpace;
      hide FastAnswer, MatchesLookup;
      hit, rsp := false, None;
      var t := Translation(0, false, NONE, NoCause, q.a.va);
      if r.phase == Idle && reqValid && NeedsWalk(q.a, q.satp) && !flush && !tlbFlush {
        hit, t := tlb.Lookup(q.a, q.satp, world);
      }
      ready := r.phase == Idle && !flush && !tlbFlush
        && (!NeedsWalk(q.a, q.satp) || hit || ptw.state == PageWalk.Idle);
      if r.phase == Response {
        rsp := Some(r.result);
      } else if reqValid && ready && (!NeedsWalk(q.a, q.satp) || hit) {
        rsp := Some(FastAnswer(q, hit, t));
        HitOrFast(world, q, hit, t);
      }
    }

    /** The memory side keeps its part: protection as configured, answers only to accepted reads, and the tables'
        contents for reads still wanted. */
    ghost predicate Served(allow: bool, memRvalid: bool, memError: bool, memData: Pte)
      reads this, ptw
    {
      && allow == world.allow(ptw.MemAddr())
      && (memRvalid ==> onBus && ptw.flight.Flight?)
      && (memRvalid && ptw.flight.current ==>
            memError == !world.mapped(ptw.flight.addr) && (!memError ==> memData == world.pte(ptw.flight.addr)))
    }

    /** Where the walker is when the translator is in a phase. */
    lemma Facts()
      requires Valid()
      ensures ptw.MemValid() ==> !ptw.flight.Flight?
      ensures r.phase != PtwWait ==>
        ptw.state in {PageWalk.Idle, PageWalk.DrainResp} && !(ptw.flight.Flight? && ptw.flight.current)
      ensures r.phase == PtwWait && ptw.state == PageWalk.Done ==>
        PageWalk.Reports(world, r.pending.satp.ppn, r.pending.a, ptw.report)
      ensures r.phase == PtwWait ==> (r.started <==> ptw.state != PageWalk.Idle)
      ensures r.phase == Response ==> (Right(world, r.pending, r.result) <==> !strayed)
    {
      hide RegsOk, PageWalk.WalkerOk, TlbEntries.AllOk, KeysApart, Sane, Right, ReadsOk;
      WalkerFacts(world, r, ptw.root, ptw.View(), ptw.flight);
      if r.phase == Response { HeldIsRight(world, r, strayed); }
    }

    /** The TLB over one edge: the leaf of a finished walk goes in, unless the TLB is flushed. */
    method RefillTlb(tlbFlush: bool, ghost world': World)
      requires Valid() && (world' != world ==> tlbFlush)
      modifies tlb, tlb.entries
      ensures tlb.Valid(world')
      ensures tlb.View() == if tlbFlush then Flushed(old(tlb.View()))
                            else if r.phase == Refill then Refilled(old(tlb.View()), RefillEntry(r))
                            else old(tlb.View())
    {
      hide TlbEntries.AllOk, KeysApart, PageWalk.WalkerOk, Sane, RegsOk, ReadsOk, InStep, EntryOk, Refilled, Flushed,
        RefillEntry;
      if r.phase == Refill { RefillFits(world, r, strayed); }
      tlb.Clock(tlbFlush, r.phase == Refill && r.leaf.valid, RefillEntry(r), world, world');
    }

    /** The walker and the denied-read register over one edge. */
    method WalkerEdge(flush: bool, start: bool, allow: bool,
                memReady: bool, memRvalid: bool, memError: bool, memData: Pte, ghost world': World)
      requires ptw.Valid(world) && InStep(r, ptw.state, ptw.q, ptw.root)
      requires ReadsOk(ptw.flight, onBus, pmpFaultPending, world)
      requires start == (r.phase == PtwWait && !r.started && ptw.state == PageWalk.Idle)
      requires world' != world ==> flush || r.phase == Idle
      requires Served(allow, memRvalid, memError, memData)
      modifies `pmpFaultPending, `onBus, ptw
      ensures ptw.Valid(world') && ReadsOk(ptw.flight, onBus, pmpFaultPending, world')
      ensures onBus == if memRvalid then false else old(onBus) || (old(ptw.MemValid()) && allow && memReady)
      ensures flush || r.phase != PtwWait ==> ptw.state in {PageWalk.Idle, PageWalk.DrainResp}
      ensures !flush && r.phase != PtwWait && old(ptw.state) == PageWalk.Idle ==> ptw.state == PageWalk.Idle
      ensures !flush && r.phase == PtwWait ==>
                if old(ptw.state) == PageWalk.Done then ptw.state == PageWalk.Idle
                else InStep(r.(started := true), ptw.state, ptw.q, ptw.root)
      ensures !flush && start ==> PageWalk.EdgesLeft(ptw.View()) <= 10
      ensures !flush && r.phase == PtwWait && r.started && old(Moving(allow, memReady, memRvalid)) ==>
                PageWalk.EdgesLeft(ptw.View()) < old(PageWalk.EdgesLeft(ptw.View()))
    {
      hide PageWalk.WalkerOk, ReadsOk, Vpn, Canonical, PteAddr, PageWalk.ReadsLeft, PageWalk.EdgesLeft,
        PageWalk.Reports;
      ghost var flight, wasOnBus, denied := ptw.flight, onBus, pmpFaultPending;
      var req, memAddr := ptw.MemValid(), ptw.MemAddr();
      var toPtw := if allow then memReady else !flush;
      var denyFire := req && !allow && toPtw;
      AnswerFits(flight, onBus, pmpFaultPending, world, memRvalid, memError, memData);
      WalkerFacts(world, r, ptw.root, ptw.View(), flight);
      ptw.Clock(flush, start, r.pending.a, r.pending.satp, toPtw, memRvalid || pmpFaultPending,
                memError || pmpFaultPending, if pmpFaultPending then NO_PTE else memData, world, world');
      pmpFaultPending := !flush && denyFire;
      onBus := if memRvalid then false else onBus || (req && allow && memReady);
      ReadsStep(flight, wasOnBus, denied, world, world', flush, req, memAddr, allow, memReady, memRvalid, ptw.flight);
    }

    /** The translator's own registers over one edge, given what the walker and the outputs said before it. */
    method Step(flush: bool, taken: bool, q: Asked, hit: bool, rsp: Option<Translation>, rspReady: bool,
                start: bool, walked: bool, report: PageWalk.Report, ptwReady: bool)
      requires RegsOk(world, r, strayed)
      requires walked && r.phase == PtwWait ==> PageWalk.Reports(world, r.pending.satp.ppn, r.pending.a, report)
      requires taken ==> r.phase == Idle && !flush && InSpace(world, q.a, q.satp)
      requires taken && rsp.None? ==> NeedsWalk(q.a, q.satp) && !hit
      requires taken && rsp.Some? ==> (Right(world, q, rsp.value) <==> !(hit && !Canonical(q.a.va)))
      requires r.phase == PtwWait ==> (start == (!r.started && ptwReady)) && (r.started ==> !ptwReady) && (r.started || start)
      requires flush || r.phase != PtwWait ==> ptw.state in {PageWalk.Idle, PageWalk.DrainResp}
      requires taken && rsp.None? ==> ptw.state == PageWalk.Idle
      requires !flush && r.phase == PtwWait ==>
                 if walked then ptw.state == PageWalk.Idle else InStep(r.(started := true), ptw.state, ptw.q, ptw.root)
      modifies `r, `strayed
      ensures RegsOk(world, r, strayed) && InStep(r, ptw.state, ptw.q, ptw.root)
      ensures strayed == if taken then hit && !Canonical(q.a.va) else old(strayed)
      ensures Moves(old(r), r, flush, taken, q, rsp, rspReady)
      ensures !flush && old(r.phase) == PtwWait ==> if walked then r.phase in {Refill, Response} else r.phase == PtwWait && r.started
      ensures !flush && old(r.phase) == Refill ==> r.phase == Response
    {
      hide InSpace, Right, Canonical, Walk, Vpn, PageWalk.Reports, PagesIn;
      if flush {
        r := RESET;
      } else {
        match r.phase
        case Idle =>
          if taken {
            strayed := hit && !Canonical(q.a.va);
            r := if rsp.Some? then Regs(if rspReady then Idle else Response, q, false, rsp.value, NO_LEAF)
                 else Regs(PtwWait, q, false, Translation(0, false, NONE, NoCause, q.a.va), NO_LEAF);
          }
        case PtwWait =>
          if walked {
            AfterWalkOk(world, r, report);
            r := AfterWalk(r, report);
          } else if start {
            r := r.(started := true);
          } else {
            // A started walk ends through Done, so the recovery of a lost walk is never needed.
            assert !(r.started && ptwReady);
          }
        case Refill =>
          r := r.(phase := Response);
        case Response =>
          if rspReady {
            r := r.(phase := Idle);
          }
      }
    }

    /** The walker and the translator's registers over one edge, after the TLB. */
    method Edge(flush: bool, tlbFlush: bool, taken: bool, q: Asked, hit: bool, rsp: Option<Translation>, rspReady: bool,
                allow: bool, memReady: bool, memRvalid: bool, memError: bool, memData: Pte, ghost world': World)
      requires Sane(world') && tlb.Valid(world') && ptw.Valid(world)
      requires InStep(r, ptw.state, ptw.q, ptw.root) && RegsOk(world, r, strayed)
      requires ReadsOk(ptw.flight, onBus, pmpFaultPending, world)
      requires r.phase == PtwWait ==> (r.started <==> ptw.state != PageWalk.Idle)
      requires r.phase == PtwWait && ptw.state == PageWalk.Done ==>
                 PageWalk.Reports(world, r.pending.satp.ppn, r.pending.a, ptw.report)
      requires world' != world ==> tlbFlush
      requires tlbFlush ==> (flush || r.phase == Idle) && !taken
      requires taken ==> r.phase == Idle && !flush && InSpace(world, q.a, q.satp)
      requires taken && rsp.None? ==> NeedsWalk(q.a, q.satp) && !hit && ptw.state == PageWalk.Idle
      requires taken && rsp.Some? ==> (Right(world, q, rsp.value) <==> !(hit && !Canonical(q.a.va)))
      requires Served(allow, memRvalid, memError, memData)
      modifies this, ptw
      ensures Valid() && world == world'
      ensures strayed == if taken then hit && !Canonical(q.a.va) else old(strayed)
      ensures Moves(old(r), r, flush, taken, q, rsp, rspReady)
      ensures old(Advances(flush, rspReady, allow, memReady, memRvalid)) ==> EdgesLeft() < old(EdgesLeft())
      ensures onBus == if memRvalid then false else old(onBus) || (old(ptw.MemValid()) && allow && memReady)
    {
      hide PageWalk.EdgesLeft;
      hide TlbEntries.AllOk, KeysApart, PageWalk.WalkerOk, Sane, RegsOk, ReadsOk, Right, Vpn, Canonical, InSpace;
      hide PageWalk.Reports, Refilled, Flushed, RefillEntry, PteAddr, NeedsWalk, InStep, TlbUnit.Tlb.Valid,
        PageWalk.Ptw.Valid;
      var start := r.phase == PtwWait && !r.started && ptw.state == PageWalk.Idle;
      var report, walked, ptwReady := ptw.report, ptw.state == PageWalk.Done, ptw.state == PageWalk.Idle;
      WalkerEdge(flush, start, allow, memReady, memRvalid, memError, memData, world');
      Step(flush, taken, q, hit, rsp, rspReady, start, walked, report, ptwReady);
      if world' != world { IdleOk(world', r, strayed); }
      world := world';
    }

    /** All registers over one edge, given the outputs of the cycle. */
    method Registers(flush: bool, tlbFlush: bool, taken: bool, q: Asked, hit: bool, rsp: Option<Translation>, rspReady: bool,
                     allow: bool, memReady: bool, memRvalid: bool, memError: bool, memData: Pte, ghost world': World)
      requires Valid() && Sane(world')
      requires world' != world ==> tlbFlush
      requires tlbFlush ==> (flush || r.phase == Idle) && !taken
      requires taken ==> r.phase == Idle && !flush && InSpace(world, q.a, q.satp)
      requires taken && rsp.None? ==> NeedsWalk(q.a, q.satp) && !hit && ptw.state == PageWalk.Idle
      requires taken && rsp.Some? ==> (Right(world, q, rsp.value) <==> !(hit && !Canonical(q.a.va)))
      requires Served(allow, memRvalid, memError, memData)
      modifies this, tlb, tlb.entries, ptw
      ensures Valid() && world == world'
      ensures strayed == if taken then hit && !Canonical(q.a.va) else old(strayed)
      ensures Moves(old(r), r, flush, taken, q, rsp, rspReady)
      ensures old(Advances(flush, rspReady, allow, memReady, memRvalid)) ==> EdgesLeft() < old(EdgesLeft())
      ensures onBus == if memRvalid then false else old(onBus) || (old(ptw.MemValid()) && allow && memReady)
      ensures tlb.View() == if tlbFlush then Flushed(old(tlb.View()))
                            else if old(r.phase) == Refill then Refilled(old(tlb.View()), RefillEntry(old(r)))
                            else old(tlb.View())
    {
      hide TlbEntries.AllOk, KeysApart, PageWalk.WalkerOk, Sane, RegsOk, ReadsOk, Right, Vpn, Canonical, InSpace,
        Moves;
      hide PageWalk.Reports, Refilled, Flushed, RefillEntry, PteAddr, NeedsWalk, InStep, Translator.Advances,
        Translator.EdgesLeft;
      hide TlbUnit.Tlb.Valid, PageWalk.Ptw.Valid, TlbUnit.Tlb.View;
      Facts();
      RefillTlb(tlbFlush, world');
      Edge(flush, tlbFlush, taken, q, hit, rsp, rspReady, allow, memReady, memRvalid, memError, memData, world');
    }

    /** One clock edge with the outputs that precede it. */
    method Clock(flush: bool, tlbFlush: bool, reqValid: bool, q: Asked, rspReady: bool, allow: bool,
                 memReady: bool, memRvalid: bool, memError: bool, memData: Pte, ghost world': World)
        returns (ready: bool, rsp: Option<Translation>, memValid: bool, memAddr: nat)
      requires Valid() && Sane(world')
      requires world' != world ==> tlbFlush
      requires tlbFlush ==> flush || r.phase == Idle
      requires reqValid ==> InSpace(world, q.a, q.satp)
      requires Served(allow, memRvalid, memError, memData)
      modifies this, tlb, tlb.entries, ptw
      ensures Valid() && world == world'
      // A request is taken when idle, and a walk in the way holds up misses only.
      ensures reqValid ==>
        (ready <==> old(r.phase) == Idle && !flush && !tlbFlush
                    && (NeedsWalk(q.a, q.satp) ==> old(Hits(q)) || old(ptw.state) == PageWalk.Idle))
      // Answers belong to the oldest request not yet answered, and are right unless the TLB strayed.
      ensures var asked := if old(Pending()).Some? then old(Pending()) else if reqValid && ready then Some(q) else None;
        && (rsp.Some? ==> asked.Some? && (Right(old(world), asked.value, rsp.value) <==> !strayed))
        && Pending() == if flush || (rsp.Some? && rspReady) then None else asked
      ensures strayed == if reqValid && ready then old(Hits(q)) && !Canonical(q.a.va) else old(strayed)
      // Every edge on which protection, memory and the client do their part brings the answer closer.
      ensures old(Advances(flush, rspReady, allow, memReady, memRvalid)) ==> EdgesLeft() < old(EdgesLeft())
      // Memory sees the walker's reads that protection allows.
      ensures memValid == (old(ptw.MemValid()) && allow) && memAddr == old(ptw.MemAddr())
      ensures onBus == if memRvalid then false else old(onBus) || (memValid && memReady)
      ensures tlb.View() == if tlbFlush then Flushed(old(tlb.View()))
                            else if old(r.phase) == Refill then Refilled(old(tlb.View()), RefillEntry(old(r)))
                            else old(tlb.View())
    {
      hide TlbEntries.AllOk, KeysApart, PageWalk.WalkerOk, Sane, RegsOk, ReadsOk, Right, Vpn, Canonical, InSpace;
      hide PageWalk.Reports, Refilled, Flushed, RefillEntry, PteAddr, NeedsWalk, InStep, MatchesLookup,
        Translator.Advances, Translator.EdgesLeft;
      hide TlbUnit.Tlb.Valid, PageWalk.Ptw.Valid, TlbUnit.Tlb.View;
      var hit: bool;
      if r.phase == Response { HeldIsRight(world, r, strayed); }
      hit, ready, rsp := Outputs(flush, tlbFlush, reqValid, q);
      memValid, memAddr := ptw.MemValid() && allow, ptw.MemAddr();
      Registers(flush, tlbFlush, reqValid && ready, q, hit, rsp, rspReady, allow, memReady, memRvalid, memError, memData,
                world');
    }
  }
}
