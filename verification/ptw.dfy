/** The Sv39 page table walker: three reads at most, one in flight, and nothing stale is ever used. */
module PageWalk {
  import opened Eei
  import opened Sv39Spec

  datatype State = Idle | Req | WaitResp | Check | Done | DrainResp

  /** What a finished walk reports. */
  datatype Report = Report(t: Translation, leafValid: bool, leafPte: Pte, leafLevel: nat)

  const NO_REPORT := Report(Translation(0, false, NONE, NoCause, 0), false, NO_PTE, 0)

  const NO_ACCESS := Access(0, M, Read, false, false)

  /** A read the memory side has accepted and not answered; current while the walk that made it is alive. */
  datatype Flight = Quiet | Flight(addr: nat, current: bool)

  /** The walker's registers. */
  datatype Walker = Walker(
    state: State, q: Access, level: nat, base: nat, pte: Pte, outstanding: bool, report: Report)

  // ---- the checks the walker makes on an entry ----

  predicate Invalid(p: Pte) { !p.v || (p.w && !p.r) || p.reserved }

  function InvalidDetail(p: Pte): Sv39Fault { if !p.v then PTE_INVALID else if p.w && !p.r then W_NO_R else RESERVED }

  predicate ReservedNonLeaf(p: Pte) { NonLeaf(p) && (p.u || p.a || p.d) }

  predicate PermFault(p: Pte, q: Access) {
    var kind := match q.kind case Read => !(p.r || (q.mxr && p.x)) case Write => !p.w case Exec => !p.x;
    if q.priv == U then kind || !p.u
    else if q.priv == S && p.u then if q.kind == Exec then true else kind || !q.sum
    else kind
  }

  function PermDetail(p: Pte, q: Access): Sv39Fault {
    if q.kind == Read && !(p.r || (q.mxr && p.x)) then LOAD_R
    else if q.kind == Write && !p.w then STORE_W
    else if q.kind == Exec && !p.x then FETCH_X
    else if q.priv == U && !p.u then PTE_U
    else if q.priv == S && p.u && q.kind == Exec then PTE_U
    else if q.priv == S && p.u && !q.sum then PTE_SUM
    else RESERVED
  }

  predicate Misaligned(p: Pte, level: nat) {
    match level case 2 => p.ppn % 0x4_0000 != 0 case 1 => p.ppn % 512 != 0 case _ => false
  }

  predicate AgeFault(p: Pte, q: Access) { !p.a || (q.kind == Write && !p.d) }

  function AgeDetail(p: Pte, q: Access): Sv39Fault {
    if !p.a then PTE_A else if q.kind == Write && !p.d then PTE_D else RESERVED
  }

  /** The walker's separate checks, in its order, amount to the first objection of the architecture. */
  lemma ChecksAreObjection(p: Pte, level: nat, q: Access)
    requires level <= 2
    ensures Objection(p, level, q) ==
      if PermFault(p, q) then PermDetail(p, q)
      else if Misaligned(p, level) then SUPERPAGE
      else if AgeFault(p, q) then AgeDetail(p, q)
      else NONE
  {
  }

  // ---- what the registers mean ----

  /** The walk that is left leads where the whole walk leads. */
  predicate OnPath(w: World, root: nat, q: Access, base: nat, level: nat) {
    && Canonical(q.va) && level <= 2
    && Walk(w, Vpn(q.va), root, 2) == Walk(w, Vpn(q.va), base, level)
  }

  function Wanted(r: Walker): nat { PteAddr(r.base, Vpn(r.q.va), r.level) }

  /** A finished report is the direct translation, and hands over the leaf whenever it has no fault. */
  predicate Reports(w: World, root: nat, q: Access, r: Report) {
    && Agree(r.t, Direct(w, q, root))
    && r.leafValid == !r.t.fault
    && (r.leafValid ==>
          Walk(w, Vpn(q.va), root, 2) == Leaf(r.leafPte, r.leafLevel) && r.leafPte.ppn % PagesIn(r.leafLevel) == 0)
  }

  /** Until a verdict, the report registers hold what start put there. */
  predicate Blank(q: Access, r: Report) {
    r.t == Translation(0, false, NONE, PageFault(q.kind), q.va) && !r.leafValid
  }

  predicate WalkerOk(w: World, root: nat, r: Walker, f: Flight) {
    && r.outstanding == f.Flight?
    && (r.outstanding <==> r.state == WaitResp || r.state == DrainResp)
    && (r.state == WaitResp ==> f == Flight(Wanted(r), true))
    && (r.state == DrainResp ==> !f.current)
    && (r.state in {Req, WaitResp, Check} ==> OnPath(w, root, r.q, r.base, r.level) && Blank(r.q, r.report))
    && (r.state == Check ==> w.Readable(Wanted(r)) && r.pte == w.pte(Wanted(r)))
    && (r.state == Done ==> Reports(w, root, r.q, r.report))
  }

  /** Edges a walk still needs, counting only edges on which the memory side does its part. */
  function EdgesLeft(r: Walker): nat {
    match r.state
    case Req => 3 * r.level + 4
    case WaitResp => 3 * r.level + 3
    case Check => 3 * r.level + 2
    case Done => 1
    case _ => 0
  }

  /** Reads a walk may still make. */
  function ReadsLeft(r: Walker): nat { if r.state == Req then r.level + 1 else if EdgesLeft(r) > 1 then r.level else 0 }

  // ---- one check ----

  /** Whatever Check decides is what the whole walk decides. */
  lemma FaultAtEntry(w: World, root: nat, r: Walker, detail: Sv39Fault)
    requires OnPath(w, root, r.q, r.base, r.level)
    requires Walk(w, Vpn(r.q.va), r.base, r.level) == BadWalk(detail)
      || (Walk(w, Vpn(r.q.va), r.base, r.level) == Leaf(r.pte, r.level) && Objection(r.pte, r.level, r.q) == detail)
    requires detail != NONE
    ensures Direct(w, r.q, root) == Refuse(r.q, detail)
  {
    hide Canonical, Vpn, Walk, Objection, Refuse;
  }

  /** The verdict on an entry that was read: refuse, go down, or accept. */
  lemma Verdict(w: World, root: nat, r: Walker)
    requires OnPath(w, root, r.q, r.base, r.level)
    requires w.Readable(Wanted(r)) && r.pte == w.pte(Wanted(r))
    ensures var p := r.pte;
      if Invalid(p) then Direct(w, r.q, root) == Refuse(r.q, InvalidDetail(p))
      else if ReservedNonLeaf(p) then Direct(w, r.q, root) == Refuse(r.q, RESERVED)
      else if NonLeaf(p) then
        if r.level == 0 then Direct(w, r.q, root) == Refuse(r.q, NONLEAF_AT_L0)
        else OnPath(w, root, r.q, p.ppn, r.level - 1)
      else if PermFault(p, r.q) then Direct(w, r.q, root) == Refuse(r.q, PermDetail(p, r.q))
      else if Misaligned(p, r.level) then Direct(w, r.q, root) == Refuse(r.q, SUPERPAGE)
      else if AgeFault(p, r.q) then Direct(w, r.q, root) == Refuse(r.q, AgeDetail(p, r.q))
      else
        && Direct(w, r.q, root) == Translation(Spliced(p.ppn, r.level, r.q.va), false, NONE, NoCause, r.q.va)
        && Walk(w, Vpn(r.q.va), root, 2) == Leaf(p, r.level) && p.ppn % PagesIn(r.level) == 0
  {
    hide Canonical, Vpn, PteAddr, Spliced, PageAddress, Objection, PermFault, Misaligned, AgeFault, PermDetail,
      AgeDetail;
    var p := r.pte;
    if !Invalid(p) && !NonLeaf(p) {
      ChecksAreObjection(p, r.level, r.q);
      SplicedIsPageAddress(p, r.level, r.q.va);
      MisalignedIs(p, r.level);
      DetailsRefuse(p, r.q);
    }
  }

  lemma MisalignedIs(p: Pte, level: nat)
    requires level <= 2
    ensures Misaligned(p, level) <==> p.ppn % PagesIn(level) != 0
  {
  }

  lemma DetailsRefuse(p: Pte, q: Access)
    ensures PermDetail(p, q) != NONE && AgeDetail(p, q) != NONE
  {
  }

  class Ptw {
    var state: State
    var q: Access
    var level: nat
    var base: nat
    var pte: Pte
    var outstanding: bool
    var report: Report
    /** Root of the walk in progress, and the read in flight. */
    ghost var root: nat
    ghost var flight: Flight

    ghost function View(): Walker
      reads this
    {
      Walker(state, q, level, base, pte, outstanding, report)
    }

    ghost predicate Valid(w: World)
      reads this
    {
      WalkerOk(w, root, View(), flight)
    }

    constructor (ghost w: World)
      ensures Valid(w) && state == Idle && flight == Quiet
    {
      state, q, level, base, pte := Idle, NO_ACCESS, 2, 0, NO_PTE;
      outstanding, report, root, flight := false, NO_REPORT, 0, Quiet;
    }

    function MemValid(): bool
      reads this
    {
      state == Req
    }

    function MemAddr(): nat
      reads this
    {
      PteAddr(base, Vpn(q.va), level)
    }

    /** The decision on an entry, made in one edge. */
    method CheckEntry(ghost w: World)
      requires Valid(w) && state == Check
      modifies this
      ensures Valid(w) && root == old(root) && flight == old(flight) && q == old(q)
      ensures state == Done || (state == Req && level == old(level) - 1)
    {
      hide OnPath, Walk, Canonical, Vpn, PteAddr, Direct, Invalid, ReservedNonLeaf, NonLeaf, PermFault, Misaligned,
        AgeFault, InvalidDetail, PermDetail, AgeDetail, Spliced, PagesIn;
      Verdict(w, root, View());
      DetailsNotMemory(pte, q);
      if Invalid(pte) {
        report, state := report.(t := report.t.(fault := true, detail := InvalidDetail(pte))), Done;
      } else if ReservedNonLeaf(pte) {
        report, state := report.(t := report.t.(fault := true, detail := RESERVED)), Done;
      } else if NonLeaf(pte) {
        if level == 0 {
          report, state := report.(t := report.t.(fault := true, detail := NONLEAF_AT_L0)), Done;
        } else {
          base, level, state := pte.ppn, level - 1, Req;
        }
      } else if PermFault(pte, q) {
        report, state := report.(t := report.t.(fault := true, detail := PermDetail(pte, q))), Done;
      } else if Misaligned(pte, level) {
        report, state := report.(t := report.t.(fault := true, detail := SUPERPAGE)), Done;
      } else if AgeFault(pte, q) {
        report, state := report.(t := report.t.(fault := true, detail := AgeDetail(pte, q))), Done;
      } else {
        var t := report.t.(pa := Spliced(pte.ppn, level, q.va), fault := false, detail := NONE);
        report, state := Report(t, true, pte, level), Done;
      }
    }

    /** A response: an error ends the walk, an entry goes to Check. */
    method TakeResponse(error: bool, data: Pte, ghost w: World)
      requires Valid(w) && state == WaitResp
      requires error == !w.Readable(flight.addr) && (!error ==> data == w.pte(flight.addr))
      modifies this
      ensures Valid(w) && root == old(root) && flight == Quiet && q == old(q) && level == old(level)
      ensures state == Done || state == Check
    {
      hide Canonical, Vpn, PteAddr;
      outstanding, flight := false, Quiet;
      if error {
        FaultAtEntry(w, root, View(), PTE_MEM_ERROR);
        var t := report.t.(fault := true, detail := PTE_MEM_ERROR, cause := AccessFault(q.kind));
        report, state := report.(t := t), Done;
      } else {
        pte, state := data, Check;
      }
    }

    /** A walk starts at the root the satp register names. */
    method Start(a: Access, satp: Satp, ghost w: World)
      requires Valid(w) && state == Idle
      modifies this
      ensures Valid(w) && root == satp.ppn && flight == Quiet && q == a
      ensures state == if Canonical(a.va) then Req else Done
      ensures level == 2
    {
      hide Canonical, Vpn, Walk;
      q, level, base, root := a, 2, satp.ppn, satp.ppn;
      var ok := Canonical(a.va);
      var t := Translation(0, !ok, if ok then NONE else ADDR_INVALID, PageFault(a.kind), a.va);
      report, state := Report(t, false, NO_PTE, 0), if ok then Req else Done;
    }

    /** A flush drops the walk; a read still in flight is waited out, and its answer ignored. */
    method Flush(memReady: bool, memRvalid: bool, ghost w: World, ghost w': World)
      requires Valid(w) && (memRvalid ==> flight.Flight?)
      modifies this
      ensures Valid(w')
      ensures state == if (old(flight).Flight? || (old(MemValid()) && memReady)) && !memRvalid then DrainResp else Idle
      ensures flight == if state == DrainResp then Flight(if old(flight).Flight? then old(flight).addr else old(MemAddr()), false)
                        else Quiet
    {
      var fire := state == Req && memReady;
      flight := if memRvalid then Quiet else if outstanding then Flight(flight.addr, false)
                else if fire then Flight(MemAddr(), false) else Quiet;
      if (outstanding || fire) && !memRvalid {
        state, outstanding := DrainResp, true;
      } else {
        state, outstanding := Idle, false;
      }
      q, level, base, pte, report := NO_ACCESS, 2, 0, NO_PTE, NO_REPORT;
    }

    /** One edge. A fresh read is answered from the tables; a stale one may be answered with anything. */
    method Clock(flush: bool, start: bool, a: Access, satp: Satp,
                 memReady: bool, memRvalid: bool, memError: bool, memData: Pte, ghost w: World, ghost w': World)
      requires Valid(w) && (w' != w ==> flush || state == Idle || state == DrainResp)
      requires memRvalid ==> flight.Flight?
      requires memRvalid && flight.current ==>
                 memError == !w.Readable(flight.addr) && (!memError ==> memData == w.pte(flight.addr))
      requires w' != w && !flush ==> !start
      modifies this
      ensures Valid(w')
      ensures flush ==> state in {Idle, DrainResp}
      ensures !flush && old(state) == Idle ==>
                if start then q == a && root == satp.ppn && state == (if Canonical(a.va) then Req else Done) && EdgesLeft(View()) <= 10
                else state == Idle
      ensures !flush && old(state) != Idle && state != Idle ==> root == old(root) && q == old(q)
      ensures !flush && old(EdgesLeft(View())) > 0 ==>
                EdgesLeft(View()) == old(EdgesLeft(View()))
                || (EdgesLeft(View()) < old(EdgesLeft(View())) && ReadsLeft(View()) + (if old(MemValid()) then 1 else 0) <= old(ReadsLeft(View())))
      ensures !flush && old(EdgesLeft(View())) > 0 && (old(state) == Req ==> memReady) && (old(state) == WaitResp ==> memRvalid) ==>
                EdgesLeft(View()) < old(EdgesLeft(View()))
      ensures !flush && old(state) == Done ==> state == Idle
      ensures !flush && old(state) == DrainResp ==> state == if memRvalid then Idle else DrainResp
      ensures !flush && old(state) !in {Done, DrainResp, Idle} ==> state !in {Idle, DrainResp}
      ensures flight == if memRvalid then Quiet
                        else if old(flight).Flight? then Flight(old(flight).addr, old(flight).current && !flush)
                        else if old(MemValid()) && memReady then Flight(old(MemAddr()), !flush)
                        else Quiet
    {
      hide Canonical, Vpn, PteAddr, OnPath, Direct, Walk, Reports, Blank;
      if flush {
        Flush(memReady, memRvalid, w, w');
      } else {
        match state
        case Idle =>
          if start {
            Start(a, satp, w);
          }
        case Req =>
          if memReady {
            flight := Flight(MemAddr(), true);
            outstanding, state := true, WaitResp;
          }
        case WaitResp =>
          if memRvalid {
            TakeResponse(memError, memData, w);
          }
        case Check =>
          CheckEntry(w);
        case Done =>
          state := Idle;
        case DrainResp =>
          if memRvalid {
            outstanding, flight, state := false, Quiet, Idle;
          }
      }
    }
  }

  lemma DetailsNotMemory(p: Pte, q: Access)
    ensures InvalidDetail(p) != PTE_MEM_ERROR && PermDetail(p, q) != PTE_MEM_ERROR && AgeDetail(p, q) != PTE_MEM_ERROR
  {
  }
}
