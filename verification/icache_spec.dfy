/** What the instruction cache's registers and lines may claim about memory. */
module ICacheLines {
  import opened Bytes
  import opened Eei
  import opened DCacheCoherence
  import AtomicMemory

  type Mem = AtomicMemory.Mem

  datatype State = Idle | FillReq | FillWait | Response | InvalidateWait

  /** The line being filled: byte address, next word and demanded word, words received so far. */
  datatype Fill = Fill(
    lineAddr: nat, active: bool, cacheable: bool, uncached: bool, allocate: bool, cpuWaiting: bool,
    index: nat, tag: nat, next: nat, response: nat, count: nat, wordValid: seq<bool>, data: Line)

  const NO_WORDS := [false, false, false, false]

  datatype Regs = Regs(state: State, rspValid: bool, rspData: Word, fill: Fill)

  datatype Lines = Lines(valid: seq<bool>, tags: seq<nat>, data: seq<Line>) {
    predicate Sized(g: Geometry) { |valid| == |tags| == |data| == g.lines }
  }

  datatype In = In(cancel: bool, invalidate: bool, req: Option<nat>, rspReady: bool,
                   memReady: bool, memRvalid: bool, memRdata: Word)

  datatype Flight = Quiet | Reading(w: Word)

  // ---- wires ----

  /** Word number the fill asks for. */
  function FillWord(f: Fill): nat { if f.uncached then f.lineAddr / 8 else f.lineAddr / 8 + f.next }

  predicate CacheHit(g: Geometry, cacheable: nat -> bool, v: Lines, addr: nat)
    requires g.Ok() && v.Sized(g)
  {
    cacheable(addr) && v.valid[g.Index(LineNo(addr))] && v.tags[g.Index(LineNo(addr))] == g.Tag(LineNo(addr))
  }

  predicate FillHit(cacheable: nat -> bool, f: Fill, addr: nat)
    requires |f.wordValid| == 4
  {
    f.active && f.allocate && cacheable(addr) && f.cacheable && addr / 32 * 32 == f.lineAddr && f.wordValid[Lane(addr)]
  }

  predicate ResponseNow(f: Fill, c: In) { f.cpuWaiting && !f.uncached && f.next == f.response && !c.cancel }

  predicate MemAnswersCpu(r: Regs, c: In) {
    r.state == FillWait && c.memRvalid && ((r.fill.uncached && r.fill.cpuWaiting && !c.cancel) || ResponseNow(r.fill, c))
  }

  predicate RspRemains(r: Regs, c: In) { (r.rspValid && !c.rspReady) || ResponseNow(r.fill, c) }

  predicate ReqReady(cacheable: nat -> bool, r: Regs, c: In)
    requires |r.fill.wordValid| == 4
  {
    && !c.cancel && !c.invalidate
    && (|| r.state == Idle
        || (r.state == Response && c.rspReady)
        || ((r.state == FillReq || r.state == FillWait) && c.req.Some? && FillHit(cacheable, r.fill, c.req.value)
            && !r.rspValid && !MemAnswersCpu(r, c)))
  }

  predicate Accepts(cacheable: nat -> bool, r: Regs, c: In)
    requires |r.fill.wordValid| == 4
  {
    c.req.Some? && ReqReady(cacheable, r, c)
  }

  // ---- meaning ----

  ghost predicate LineIs(m: Mem, line: nat, data: Line) { forall k: nat :: k < 4 ==> data[k] == m[WordAt(line, k)] }

  /** Every valid line is the memory it stands for. */
  ghost predicate LinesOk(g: Geometry, v: Lines, m: Mem)
    requires g.Ok() && v.Sized(g)
  {
    forall i :: 0 <= i < g.lines && v.valid[i] ==> LineIs(m, g.LineAt(v.tags[i], i), v.data[i])
  }

  /** Is word w of the line among the first `count` received, starting at the demanded one? */
  predicate Filled(start: nat, count: nat, w: nat) { (if w < start then w + 4 - start else w - start) < count }

  ghost predicate FillOk(g: Geometry, f: Fill, m: Mem)
    requires g.Ok()
  {
    && f.active && f.cacheable != f.uncached && f.allocate == f.cacheable && |f.wordValid| == 4
    && f.next < 4 && f.response < 4 && f.count < 4
    && (f.cpuWaiting ==> f.count == 0)
    && (f.cacheable ==>
          && f.lineAddr % 32 == 0 && f.next == (f.response + f.count) % 4
          && f.index == g.Index(LineNo(f.lineAddr)) && f.tag == g.Tag(LineNo(f.lineAddr))
          && forall w: nat :: w < 4 ==>
               f.wordValid[w] == Filled(f.response, f.count, w)
               && (f.wordValid[w] ==> f.data[w] == m[WordAt(LineNo(f.lineAddr), w)]))
  }

  /** The waiting request is the one the fill serves. */
  predicate Serves(f: Fill, want: Option<nat>) {
    want.Some? && if f.uncached then want.value / 8 == f.lineAddr / 8
                  else LineNo(want.value) == LineNo(f.lineAddr) && Lane(want.value) == f.response
  }

  /** `want` is the request accepted and neither answered nor dropped. */
  ghost predicate CacheOk(g: Geometry, r: Regs, m: Mem, want: Option<nat>, flight: Flight)
    requires g.Ok()
  {
    && |r.fill.wordValid| == 4
    && (r.rspValid ==> want.Some? && r.rspData == m[WordNo(want.value)])
    && (r.fill.cpuWaiting ==> (r.state == FillReq || r.state == FillWait) && !r.rspValid && Serves(r.fill, want))
    && (want.Some? ==> r.rspValid || r.fill.cpuWaiting)
    && match r.state
       case FillReq => FillOk(g, r.fill, m)
       case FillWait => FillOk(g, r.fill, m) && flight == Reading(m[FillWord(r.fill)])
       case InvalidateWait => true
       case _ => !r.fill.active
  }

  /** The memory answers each accepted read once, with what it held. */
  predicate MemoryOk(flight: Flight, c: In) {
    && (c.memReady ==> flight == Quiet || c.memRvalid)
    && (c.memRvalid ==> flight.Reading? && c.memRdata == flight.w)
  }

  ghost function FlightNext(r: Regs, m: Mem, flight: Flight, c: In): Flight {
    if r.state == FillReq && c.memReady then Reading(m[FillWord(r.fill)]) else if c.memRvalid then Quiet else flight
  }

  /** The client asks for nothing new before it has taken the previous answer; the same cycle will do. */
  predicate ClientOk(r: Regs, want: Option<nat>, c: In) {
    c.req.Some? ==> want.None? || (r.rspValid && c.rspReady)
  }

  function WantNext(cacheable: nat -> bool, r: Regs, want: Option<nat>, c: In): Option<nat>
    requires |r.fill.wordValid| == 4
  {
    if Accepts(cacheable, r, c) then c.req
    else if (r.rspValid && c.rspReady) || c.cancel || c.invalidate then None
    else want
  }

  /** Memory transfers a fill still needs, in edges on which memory does its part. */
  function Work(r: Regs): nat {
    if r.state != FillReq && r.state != FillWait then 0
    else (if r.fill.uncached || 4 <= r.fill.count then 1 else 2 * (4 - r.fill.count) - 1) + if r.state == FillReq then 1 else 0
  }

  // ---- the register updates ----

  /** An answered, cancelled or invalidated request leaves the response registers. */
  function Settled(r: Regs, c: In): Regs {
    var r1 := if r.rspValid && c.rspReady then r.(rspValid := false) else r;
    if c.cancel then r1.(rspValid := false, fill := r1.fill.(cpuWaiting := false)) else r1
  }

  function SettledWant(r: Regs, want: Option<nat>, c: In): Option<nat> {
    if (r.rspValid && c.rspReady) || c.cancel then None else want
  }

  lemma SettledKeeps(g: Geometry, r: Regs, m: Mem, want: Option<nat>, flight: Flight, c: In)
    requires g.Ok() && CacheOk(g, r, m, want, flight)
    ensures CacheOk(g, Settled(r, c), m, SettledWant(r, want, c), flight)
  {
    hide Geometry.Index, Geometry.Tag, Filled, WordNo, LineNo, Lane;
  }

  function StartFill(g: Geometry, cacheable: nat -> bool, f: Fill, addr: nat): Fill
    requires g.Ok()
  {
    var ram := cacheable(addr);
    Fill(if ram then addr / 32 * 32 else addr / 8 * 8, true, ram, !ram, ram, true, g.Index(LineNo(addr)), g.Tag(LineNo(addr)),
         if ram then Lane(addr) else 0, Lane(addr), 0, NO_WORDS, f.data)
  }

  lemma StartFillOk(g: Geometry, cacheable: nat -> bool, f: Fill, addr: nat, m: Mem)
    requires g.Ok()
    ensures var f' := StartFill(g, cacheable, f, addr);
            FillOk(g, f', m) && Serves(f', Some(addr)) && |f'.wordValid| == 4 && f'.active && f'.cpuWaiting
  {
    hide Geometry.Index, Geometry.Tag;
    assert LineNo(addr / 32 * 32) == LineNo(addr);
    assert addr / 8 * 8 / 8 == addr / 8;
  }

  /** A hit delivers the demanded word of memory. */
  lemma HitReadsMemory(g: Geometry, cacheable: nat -> bool, v: Lines, m: Mem, addr: nat)
    requires g.Ok() && v.Sized(g) && LinesOk(g, v, m) && CacheHit(g, cacheable, v, addr)
    ensures v.data[g.Index(LineNo(addr))][Lane(addr)] == m[WordNo(addr)]
  {
    hide Geometry.Index, Geometry.Tag, Geometry.LineAt, LineIs;
    var i := g.Index(LineNo(addr));
    LineSplit(g, LineNo(addr));
    LineWord(m, LineNo(addr), v.data[i], addr);
  }

  lemma LineWord(m: Mem, line: nat, data: Line, addr: nat)
    requires LineIs(m, line, data) && line == LineNo(addr)
    ensures data[Lane(addr)] == m[WordNo(addr)]
  {
    WordParts(addr);
  }

  /** So does a word of a line that is still being filled. */
  lemma FillHitReadsMemory(g: Geometry, cacheable: nat -> bool, f: Fill, m: Mem, addr: nat)
    requires g.Ok() && FillOk(g, f, m) && FillHit(cacheable, f, addr)
    ensures f.data[Lane(addr)] == m[WordNo(addr)]
  {
    hide Geometry.Index, Geometry.Tag, Filled;
    WordParts(addr);
    assert LineNo(f.lineAddr) == LineNo(addr);
  }

  /** The word a fill has asked for is the demanded one as long as the client waits. */
  lemma DemandedFirst(g: Geometry, f: Fill, m: Mem, want: Option<nat>)
    requires g.Ok() && FillOk(g, f, m) && Serves(f, want) && f.cpuWaiting
    ensures m[FillWord(f)] == m[WordNo(want.value)] && (!f.uncached ==> f.next == f.response)
  {
    hide Geometry.Index, Geometry.Tag, Filled;
    WordParts(want.value);
    LineBegin(f.lineAddr);
  }

  lemma LineBegin(a: nat)
    ensures a % 32 == 0 ==> forall w: nat :: w < 4 ==> WordAt(LineNo(a), w) == a / 8 + w
  {
  }

  /** A received word joins the fill. */
  function WithWord(f: Fill, w: Word): Fill
    requires |f.wordValid| == 4 && f.next < 4
  {
    f.(data := f.data[f.next := w], wordValid := f.wordValid[f.next := true])
  }

  lemma ReceivedKeeps(g: Geometry, f: Fill, m: Mem)
    requires g.Ok() && FillOk(g, f, m) && !f.uncached && f.count < 3
    ensures FillOk(g, WithWord(f, m[FillWord(f)]).(cpuWaiting := false, next := (f.next + 1) % 4, count := f.count + 1), m)
  {
    hide Geometry.Index, Geometry.Tag;
    LineBegin(f.lineAddr);
  }

  /** With its last word a line is complete. */
  lemma LastWord(g: Geometry, f: Fill, m: Mem)
    requires g.Ok() && FillOk(g, f, m) && !f.uncached && f.count == 3
    ensures LineIs(m, LineNo(f.lineAddr), f.data[f.next := m[FillWord(f)]])
    ensures g.LineAt(f.tag, f.index) == LineNo(f.lineAddr) && f.index < g.lines
  {
    LineBegin(f.lineAddr);
    LineSplit(g, LineNo(f.lineAddr));
  }

  lemma LineInstalled(g: Geometry, v: Lines, m: Mem, f: Fill)
    requires g.Ok() && v.Sized(g) && LinesOk(g, v, m) && FillOk(g, f, m) && !f.uncached && f.count == 3
    ensures var line := f.data[f.next := m[FillWord(f)]];
      LinesOk(g, Lines(v.valid[f.index := true], v.tags[f.index := f.tag], v.data[f.index := line]), m)
  {
    hide LineIs, Geometry.Index, Geometry.Tag, Geometry.LineAt, Filled;
    LastWord(g, f, m);
  }
}
