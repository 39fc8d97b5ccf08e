/** The Sv39 translation the hardware must agree with: Privileged Architecture 20211203, sections 4.3.2 and 4.4. */
module Sv39Spec {
  import opened Eei

  datatype Sv39Fault =
    | NONE | ADDR_INVALID | PTE_MEM_ERROR | PTE_INVALID | W_NO_R | RESERVED | NONLEAF_AT_L0 | SUPERPAGE
    | FETCH_X | LOAD_R | STORE_W | PTE_A | PTE_D | PTE_U | PTE_SUM

  datatype Cause =
    | NoCause
    | InstructionAccessFault | LoadAccessFault | StoreAmoAccessFault
    | InstructionPageFault | LoadPageFault | StoreAmoPageFault

  /** A page table entry, field by field. */
  datatype Pte = Pte(v: bool, r: bool, w: bool, x: bool, u: bool, g: bool, a: bool, d: bool, ppn: nat, reserved: bool)

  const NO_PTE := Pte(false, false, false, false, false, false, false, false, 0, false)

  datatype Satp = Satp(mode: nat, asid: nat, ppn: nat)

  /** One access to translate. */
  datatype Access = Access(va: nat, priv: PrivMode, kind: AccessType, sum: bool, mxr: bool)

  datatype Translation = Translation(pa: nat, fault: bool, detail: Sv39Fault, cause: Cause, value: nat)

  /** What walks read: the tables, where physical memory protection allows a read, where memory answers it,
      the root of each address space, and the address spaces in use. */
  datatype World = World(pte: nat -> Pte, allow: nat -> bool, mapped: nat -> bool, root: nat -> nat, live: set<nat>) {
    predicate Readable(a: nat) { allow(a) && mapped(a) }
  }

  predicate Canonical(va: nat) {
    va < 0x40_0000_0000 || 0xFFFF_FFC0_0000_0000 <= va < 0x1_0000_0000_0000_0000
  }

  /** Virtual page number, 27 bits, and its 9-bit parts. */
  function Vpn(va: nat): nat { va / 4096 % 0x800_0000 }

  function VpnPart(vpn: nat, level: nat): nat {
    match level case 2 => vpn / 0x4_0000 % 512 case 1 => vpn / 512 % 512 case _ => vpn % 512
  }

  /** The part of the page number that a leaf at this level compares. */
  function VpnPrefix(vpn: nat, level: nat): nat {
    match level case 2 => vpn / 0x4_0000 case 1 => vpn / 512 case _ => vpn
  }

  function PteAddr(base: nat, vpn: nat, level: nat): nat { base * 4096 + VpnPart(vpn, level) * 8 }

  function PagesIn(level: nat): (n: nat)
    ensures 0 < n
  {
    match level case 2 => 0x4_0000 case 1 => 512 case _ => 1
  }

  /** Where a walk ends: at a leaf, or at a fault that no permission could change. */
  datatype Walked = Leaf(pte: Pte, level: nat) | BadWalk(detail: Sv39Fault)

  predicate NonLeaf(p: Pte) { !p.r && !p.x }

  function Walk(w: World, vpn: nat, base: nat, level: nat): Walked
    decreases level
  {
    var a := PteAddr(base, vpn, level);
    if !w.Readable(a) then BadWalk(PTE_MEM_ERROR)
    else
      var p := w.pte(a);
      if !p.v then BadWalk(PTE_INVALID)
      else if p.w && !p.r then BadWalk(W_NO_R)
      else if p.reserved then BadWalk(RESERVED)
      else if NonLeaf(p) && (p.u || p.a || p.d) then BadWalk(RESERVED)
      else if NonLeaf(p) then if level == 0 then BadWalk(NONLEAF_AT_L0) else Walk(w, vpn, p.ppn, level - 1)
      else Leaf(p, level)
  }

  /** The first objection to an access through a leaf, in the order of section 4.3.2. */
  function Objection(p: Pte, level: nat, q: Access): Sv39Fault {
    if q.kind == Read && !(p.r || (q.mxr && p.x)) then LOAD_R
    else if q.kind == Write && !p.w then STORE_W
    else if q.kind == Exec && !p.x then FETCH_X
    else if q.priv == U && !p.u then PTE_U
    else if q.priv == S && p.u && q.kind == Exec then PTE_U
    else if q.priv == S && p.u && !q.sum then PTE_SUM
    else if p.ppn % PagesIn(level) != 0 then SUPERPAGE
    else if !p.a then PTE_A
    else if q.kind == Write && !p.d then PTE_D
    else NONE
  }

  function PageFault(kind: AccessType): Cause {
    match kind case Exec => InstructionPageFault case Write => StoreAmoPageFault case Read => LoadPageFault
  }

  function AccessFault(kind: AccessType): Cause {
    match kind case Exec => InstructionAccessFault case Write => StoreAmoAccessFault case Read => LoadAccessFault
  }

  function Refuse(q: Access, detail: Sv39Fault): Translation {
    Translation(0, true, detail, if detail == PTE_MEM_ERROR then AccessFault(q.kind) else PageFault(q.kind), q.va)
  }

  /** The address of a byte in the page a leaf maps: page frame plus offset in the page. */
  function PageAddress(p: Pte, level: nat, va: nat): nat { p.ppn * 4096 + va % (4096 * PagesIn(level)) }

  function Conclude(q: Access, walked: Walked): Translation {
    match walked
    case BadWalk(detail) => Refuse(q, detail)
    case Leaf(p, level) =>
      var objection := Objection(p, level, q);
      if objection != NONE then Refuse(q, objection)
      else Translation(PageAddress(p, level, q.va), false, NONE, NoCause, q.va)
  }

  function Direct(w: World, q: Access, root: nat): Translation {
    if !Canonical(q.va) then Refuse(q, ADDR_INVALID) else Conclude(q, Walk(w, Vpn(q.va), root, 2))
  }

  predicate Bare(q: Access, satp: Satp) { satp.mode == 0 || q.priv == M }

  predicate NeedsWalk(q: Access, satp: Satp) { satp.mode == 8 && q.priv != M }

  /** The direct translation of an access. */
  function Translate(w: World, q: Access, satp: Satp): Translation {
    if Bare(q, satp) then Translation(q.va, false, NONE, NoCause, q.va)
    else if satp.mode != 8 then Refuse(q, ADDR_INVALID)
    else Direct(w, q, satp.ppn)
  }

  /** Two translations a client cannot tell apart: the address counts only without a fault, the cause only
      with one. */
  predicate Agree(t: Translation, s: Translation) {
    && t.fault == s.fault && t.detail == s.detail && t.value == s.value
    && (if t.fault then t.cause == s.cause else t.pa == s.pa)
  }

  /** A global leaf is the same in every address space in use. */
  ghost predicate Sane(w: World) {
    forall a, b, vpn: nat ::
      a in w.live && b in w.live && Walk(w, vpn, w.root(a), 2).Leaf? && Walk(w, vpn, w.root(a), 2).pte.g ==>
        Walk(w, vpn, w.root(b), 2) == Walk(w, vpn, w.root(a), 2)
  }

  /** The access names an address space in use, by its ASID and its root. */
  predicate InSpace(w: World, q: Access, satp: Satp) {
    NeedsWalk(q, satp) ==> satp.asid in w.live && satp.ppn == w.root(satp.asid)
  }

  /** A leaf found at some level depends only on the page number parts down to that level. */
  lemma {:induction false} WalkPrefix(w: World, v: nat, u: nat, base: nat, level: nat)
    requires level <= 2
    requires Walk(w, v, base, level).Leaf?
    requires VpnPrefix(v, Walk(w, v, base, level).level) == VpnPrefix(u, Walk(w, v, base, level).level)
    ensures Walk(w, u, base, level) == Walk(w, v, base, level)
    ensures Walk(w, v, base, level).level <= level
    decreases level
  {
    hide VpnPart, VpnPrefix;
    var p := w.pte(PteAddr(base, v, level));
    if !NonLeaf(p) {
      SamePart(v, u, level, level);
    } else {
      WalkPrefix(w, v, u, p.ppn, level - 1);
      SamePart(v, u, Walk(w, v, base, level).level, level);
    }
  }

  lemma SamePart(v: nat, u: nat, low: nat, level: nat)
    requires low <= level <= 2 && VpnPrefix(v, low) == VpnPrefix(u, low)
    ensures VpnPart(v, level) == VpnPart(u, level)
  {
    assert v / 0x4_0000 == v / 512 / 512 && u / 0x4_0000 == u / 512 / 512;
  }

  /** A leaf of a walk is valid and well formed. */
  lemma {:induction false} LeafForm(w: World, vpn: nat, base: nat, level: nat)
    requires Walk(w, vpn, base, level).Leaf?
    ensures var p := Walk(w, vpn, base, level).pte; p.v && !(p.w && !p.r) && !p.reserved && !NonLeaf(p)
    decreases level
  {
    hide VpnPart, PteAddr;
    var p := w.pte(PteAddr(base, vpn, level));
    if NonLeaf(p) {
      LeafForm(w, vpn, p.ppn, level - 1);
    }
  }

  /** Joining the high bits of the page frame with the low bits of the address, as the walker and the TLB do. */
  function Spliced(ppn: nat, level: nat, va: nat): nat {
    ppn / PagesIn(level) * (4096 * PagesIn(level)) + va % (4096 * PagesIn(level))
  }

  /** Splicing gives the address in the page exactly when the page frame is aligned to the page size. */
  lemma SplicedIsPageAddress(p: Pte, level: nat, va: nat)
    ensures Spliced(p.ppn, level, va) == PageAddress(p, level, va) <==> p.ppn % PagesIn(level) == 0
  {
  }
}
