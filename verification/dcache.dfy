/** rtl/cache/dcache.sv: direct-mapped cache, store buffer, fill, writeback and flush. */
module DCache {
  import opened Bytes
  import opened Eei
  import opened DCacheCoherence
  import opened FlatMemory
  import opened Ring

  datatype State = Idle | LoadFillReq | LoadFillWait | BypassReq | BypassWait | WritebackReq | FlushScan | Response

  /** Byte lanes of the addressed word that an access of this size touches. */
  function AccessByteMask(funct3: nat, offset: nat): (m: Mask)
    requires offset < 8
    ensures forall i | 0 <= i < 8 :: m[i] <==> offset <= i < offset + AccessSize(funct3)
  {
    var available := 8 - offset;
    var bytes := if AccessSize(funct3) < available then AccessSize(funct3) else available;
    seq(8, i requires 0 <= i < 8 => offset <= i < offset + bytes)
  }

  predicate MasksMeet(m: Mask, n: Mask) { exists i | 0 <= i < 8 :: m[i] && n[i] }

  /** A pending store touches one of the lanes `mask` of the word at `addr`. */
  predicate Overlaps(pending: seq<Store>, addr: nat, mask: Mask) {
    exists j | 0 <= j < |pending| :: WordNo(pending[j].addr) == WordNo(addr) && MasksMeet(pending[j].wmask, mask)
  }

  /** Combinational view of the processor request in this cycle. */
  datatype Wires = Wires(cacheable: bool, hit: bool, loadBypass: bool, issueValid: bool, ready: bool)

  datatype Fill = Fill(lineAddr: nat, index: nat, tag: nat, nextWord: nat, responseWord: nat, count: nat, allocate: bool)

  datatype Writeback = Writeback(lineAddr: nat, index: nat, word: nat, resumeBypass: bool, resumeFlush: bool)

  /** The fill registers name one line of RAM and the next word to fetch, in wrapping order. */
  ghost predicate FillRegs(g: Geometry, f: Fill)
  {
    && g.Ok()
    && g.IsRam(f.lineAddr) && f.lineAddr == 32 * LineNo(f.lineAddr)
    && f.index == g.Index(LineNo(f.lineAddr)) && f.tag == g.Tag(LineNo(f.lineAddr))
    && f.responseWord < 4 && f.count < 4
    && f.nextWord == (f.responseWord + f.count) % 4
  }

  function StoreAccess(e: Store): Access {
    Access(e.addr, true, e.wdata, e.wmask, false, ADD, false, false, e.funct3)
  }

  function FillAccess(f: Fill): Access {
    Access(f.lineAddr + 8 * f.nextWord, false, ZERO_WORD, FULL_MASK, false, ADD, false, false, 3)
  }

  lemma FillAddress(g: Geometry, f: Fill)
    requires FillRegs(g, f)
    ensures g.IsRam(FillAccess(f).addr) && f.nextWord < 4
    ensures WordNo(FillAccess(f).addr) == WordAt(LineNo(f.lineAddr), f.nextWord)
    ensures g.IsRamWord(WordAt(LineNo(f.lineAddr), f.nextWord))
  {
    hide g.Index, g.Tag, LineNo, WordNo, g.Base, g.Words, g.IsRamWord, WordAt;
    LineOfWords(g, LineNo(f.lineAddr), f.nextWord);
  }

  /** Words fetched so far, counting from the critical word. */
  ghost predicate FillWords(g: Geometry, f: Fill, fetched: seq<Word>, words: seq<Word>)
    requires FillRegs(g, f) && |fetched| == 4 && |words| == g.Words()
  {
    forall k: nat | k < 4 && (k + 4 - f.responseWord) % 4 < f.count ::
      HoldsWord(g, words, WordAt(LineNo(f.lineAddr), k), fetched[k])
  }

  predicate HoldsWord(g: Geometry, words: seq<Word>, a: nat, w: Word)
    requires g.Ok() && |words| == g.Words()
  {
    g.IsRamWord(a) && words[a - g.Base()] == w
  }

  lemma OwedWord(g: Geometry, f: Fill, flat: Flat, w: Word)
    requires FillRegs(g, f) && f.count == 0 && |flat.words| == g.Words()
    requires FillOwes(g, f, flat) && HoldsWord(g, flat.words, WordAt(LineNo(f.lineAddr), f.nextWord), w)
    ensures flat.owed == Value(w)
  {
  }

  /** One more word arrives: the fetched words still match, and after the fourth the line is complete. */
  lemma FillTake(g: Geometry, f: Fill, fetched: seq<Word>, words: seq<Word>, w: Word)
    requires FillRegs(g, f) && |fetched| == 4 && |words| == g.Words()
    requires FillWords(g, f, fetched, words)
    requires HoldsWord(g, words, WordAt(LineNo(f.lineAddr), f.nextWord), w)
    ensures
      var fetched' := fetched[f.nextWord := w];
      if f.count == 3 then LineAgrees(g, words, LineNo(f.lineAddr), fetched')
      else
        var f' := f.(nextWord := (f.nextWord + 1) % 4, count := f.count + 1);
        FillRegs(g, f') && FillWords(g, f', fetched', words)
  {
    hide g.Index, g.Tag, g.Base, LineNo, WordAt;
    var fetched' := fetched[f.nextWord := w];
    forall k: nat | k < 4 && (k + 4 - f.responseWord) % 4 < f.count + 1
      ensures HoldsWord(g, words, WordAt(LineNo(f.lineAddr), k), fetched'[k])
    {
      if k != f.nextWord {
        assert (k + 4 - f.responseWord) % 4 < f.count;
      }
    }
  }

  /** The load that missed is owed the critical word. */
  ghost predicate FillOwes(g: Geometry, f: Fill, flat: Flat)
    requires FillRegs(g, f) && |flat.words| == g.Words()
  {
    flat.owed.Value? && HoldsWord(g, flat.words, WordAt(LineNo(f.lineAddr), f.responseWord), flat.owed.w)
  }

  /** Every answer still owed is on its way out. */
  ghost predicate Settled(owed: Owed, rspValid: bool) { owed == Nothing || rspValid }

  ghost predicate Filling(g: Geometry, v: Arrays, f: Fill, fetched: seq<Word>, flat: Flat, rspValid: bool)
    requires g.Ok() && v.Sized(g)
  {
    && |fetched| == 4 && |flat.words| == g.Words()
    && FillRegs(g, f) && FillWords(g, f, fetched, flat.words)
    && !(v.valid[f.index] && v.dirty[f.index])
    && (if f.count == 0 then FillOwes(g, f, flat) && !rspValid else Settled(flat.owed, rspValid))
  }

  /** A fill with one more word, not the last, is a fill. */
  lemma FillStep(g: Geometry, v: Arrays, f: Fill, fetched: seq<Word>, flat: Flat, rspValid: bool, w: Word)
    requires g.Ok() && v.Sized(g) && Filling(g, v, f, fetched, flat, rspValid) && !rspValid && f.count < 3
    requires HoldsWord(g, flat.words, WordAt(LineNo(f.lineAddr), f.nextWord), w)
    ensures f.nextWord < 4 && (f.nextWord == f.responseWord <==> f.count == 0)
    ensures f.nextWord == f.responseWord ==> flat.owed == Value(w)
    ensures Filling(g, v, f.(nextWord := (f.nextWord + 1) % 4, count := f.count + 1), fetched[f.nextWord := w], flat,
                    f.nextWord == f.responseWord)
  {
    hide FillWords, HoldsWord, WordAt, LineNo;
    FillTake(g, f, fetched, flat.words, w);
    if f.count == 0 { OwedWord(g, f, flat, w); }
  }

  /** The word a fill waits for is the flat word. */
  lemma FetchedIsFlat(g: Geometry, writeBack: bool, v: Arrays, f: Fill, bus: Bus, words: seq<Word>, in_: In)
    requires g.Ok() && v.Sized(g) && |bus.mem| == |words| == g.Words() && BusOk(g, bus, in_) && in_.memRvalid
    requires Coherent(g, writeBack, v, [], bus.mem, words)
    requires FillRegs(g, f) && !(v.valid[f.index] && v.dirty[f.index])
    requires bus.flight == Quiet || bus.flight == Reading(WordAt(LineNo(f.lineAddr), f.nextWord))
    ensures HoldsWord(g, words, WordAt(LineNo(f.lineAddr), f.nextWord), in_.memRdata)
  {
    hide LinesAgree, MemoryAgrees, BufferOk, WordAt, LineNo;
    FillAddress(g, f);
    MemoryReadsFlat(g, writeBack, v, bus.mem, words, WordAt(LineNo(f.lineAddr), f.nextWord));
  }

  ghost predicate WritingBack(g: Geometry, v: Arrays, wb: Writeback, f: Fill, saved: Access, flat: Flat, mem: seq<Word>)
    requires g.Ok() && v.Sized(g)
  {
    && wb.index < g.lines && wb.word < 4 && |flat.words| == g.Words()
    && v.valid[wb.index] && v.dirty[wb.index]
    && wb.lineAddr == 32 * g.LineAt(v.tags[wb.index], wb.index)
    && WrittenBack(g, v, mem, wb.index, wb.word)
    && (if wb.resumeFlush then flat.owed == Nothing
        else if wb.resumeBypass then
          && saved.isAmo && g.IsRam(saved.addr) && flat.owed == AtomicPending(saved)
          && LineNo(saved.addr) == g.LineAt(v.tags[wb.index], wb.index)
        else FillRegs(g, f) && f.count == 0 && f.index == wb.index && FillOwes(g, f, flat))
  }

  /** The address driven for a writeback word is that word of the victim line. */
  lemma VictimWord(g: Geometry, v: Arrays, wb: Writeback)
    requires g.Ok() && v.Sized(g) && wb.index < g.lines && wb.word < 4
    requires wb.lineAddr == 32 * g.LineAt(v.tags[wb.index], wb.index)
    ensures WordNo(wb.lineAddr + 8 * wb.word) == WordAt(g.LineAt(v.tags[wb.index], wb.index), wb.word)
    ensures g.IsRamWord(WordNo(wb.lineAddr + 8 * wb.word)) ==> g.IsRam(wb.lineAddr + 8 * wb.word)
  {
    hide g.LineAt, WordNo, g.Base, g.Words, g.IsRam, g.IsRamWord, WordAt;
    LineOfWords(g, g.LineAt(v.tags[wb.index], wb.index), wb.word);
  }

  /** An invalidated line no longer hits. */
  lemma DroppedLineMisses(g: Geometry, v: Arrays, line: nat, t: nat, i: nat)
    requires g.Ok() && v.Sized(g) && i < g.lines && !v.valid[i] && line == g.LineAt(t, i)
    ensures !Hit(g, v, line)
  {
    hide g.LineAt, g.Index, g.Tag;
    LineJoin(g, t, i);
  }

  /** Writeback registers for the line at index `i`, from its first word. */
  function VictimOf(g: Geometry, tag: nat, wb: Writeback, i: nat): Writeback {
    wb.(lineAddr := 32 * g.LineAt(tag, i), index := i, word := 0)
  }

  /** An atomic that reaches memory ahead of the writeback of its own line hits a hidden word. */
  lemma StaleAtomic(g: Geometry, v: Arrays, wb: Writeback, f: Fill, r: Access, flat: Flat, bus: Bus, in_: In, unit: AtomicUnit)
    requires Coherent(g, true, v, [], bus.mem, flat.words)
    requires r.isAmo && g.IsRam(r.addr) && Hit(g, v, LineNo(r.addr)) && v.dirty[g.Index(LineNo(r.addr))]
    ensures
      var bus' := BusNext(g, bus, Some(r), in_, unit);
      && |bus'.mem| == g.Words()
      && bus'.res == (if in_.memReady then unit.reserve(r, bus.res) else bus.res)
      && Accept(g, flat, r) == flat.(owed := AtomicPending(r))
      && Coherent(g, true, v, [], bus'.mem, flat.words)
      && (!wb.resumeFlush ==>
            WritingBack(g, v, VictimOf(g, v.tags[g.Index(LineNo(r.addr))], wb, g.Index(LineNo(r.addr))).(resumeBypass := true), f, r, flat.(owed := AtomicPending(r), res := bus'.res), bus'.mem))
  {
    hide LinesAgree, MemoryAgrees, BufferOk, FillRegs, FillOwes, g.LineAt, g.Index, g.Tag, g.Base, g.Words;
    var x := RamIx(g, r.addr);
    LineSplit(g, LineNo(r.addr));
    AmoWord(g, v, r.addr);
    if in_.memReady {
      HiddenAtomicKeeps(g, v, bus.mem, flat.words, WordNo(r.addr), unit.run(r, bus.mem[x], bus.res).0);
    }
  }

  /** An atomic on a word no line holds takes effect in memory and in flat memory alike. */
  lemma AtomicTaken(g: Geometry, writeBack: bool, v: Arrays, r: Access, flat: Flat, bus: Bus, in_: In, unit: AtomicUnit)
    requires Coherent(g, writeBack, v, [], bus.mem, flat.words) && bus.res == flat.res
    requires r.isAmo && g.IsRam(r.addr) && !Hit(g, v, LineNo(r.addr)) && flat.owed == AtomicPending(r) && in_.memReady
    ensures
      var bus', flat' := BusNext(g, bus, Some(r), in_, unit), TakeHidden(g, flat, AtomicStep, in_.memRdata, unit);
      && |bus'.mem| == |flat'.words| == g.Words() && bus'.res == flat'.res
      && flat'.owed.Value? && bus'.flight == Atomic(flat'.owed.w)
      && Coherent(g, writeBack, v, [], bus'.mem, flat'.words)
  {
    hide LinesAgree, MemoryAgrees, BufferOk, g.Index, g.Tag;
    ghost var x := RamIx(g, r.addr);
    AmoWord(g, v, r.addr);
    MemoryReadsFlat(g, writeBack, v, bus.mem, flat.words, WordNo(r.addr));
    AtomicKeeps(g, writeBack, v, bus.mem, flat.words, WordNo(r.addr), unit.run(r, bus.mem[x], bus.res).0);
  }

  ghost predicate Bypassing(g: Geometry, v: Arrays, saved: Access, owed: Owed)
    requires g.Ok() && v.Sized(g)
  {
    if g.IsRam(saved.addr) then saved.isAmo && !Hit(g, v, LineNo(saved.addr)) && owed == AtomicPending(saved)
    else if saved.wen && !saved.isAmo then owed == Nothing
    else owed == DevicePending
  }

  ghost predicate AwaitingBus(owed: Owed, flight: Flight) {
    (owed == DevicePending && flight == Device) || (owed.Value? && flight == Atomic(owed.w))
  }

  /** The flush scan has invalidated every line below `upTo`. */
  ghost predicate Swept(v: Arrays, upTo: nat) {
    upTo <= |v.valid| && forall i | 0 <= i < upTo :: !v.valid[i]
  }

  /** What the ready wire guarantees about the request it admits, with `left` stores still buffered. */
  ghost predicate Admissible(g: Geometry, depth: nat, writeBack: bool, v: Arrays, r: Access, w: Wires, left: nat, drained: bool)
    requires g.Ok() && v.Sized(g)
  {
    && w.cacheable == Cacheable(g, r)
    && w.hit == (w.cacheable && Hit(g, v, LineNo(r.addr)))
    && (w.cacheable && r.wen ==> (writeBack && w.hit) || left < depth)
    && (w.cacheable && !r.wen && !w.hit ==> left == 0 && !drained)
    && (!w.cacheable ==> left == 0 && !drained)
  }

  /** The bus request each state other than Idle drives. */
  ghost predicate Drives(state: State, fill: Fill, saved: Access, wb: Writeback, data: seq<Line>, req: Option<Access>)
  {
    match state
    case LoadFillReq => req == Some(FillAccess(fill))
    case BypassReq => req == Some(saved)
    case WritebackReq =>
      wb.index < |data| && wb.word < 4
      && req == Some(Access(wb.lineAddr + 8 * wb.word, true, data[wb.index][wb.word], FULL_MASK, false, ADD, false, false, 3))
    case Idle => true
    case _ => req == None
  }

  /** Where a writeback goes from one edge to the next. */
  ghost predicate WritebackEdge(lines: nat, before: Writeback, index: nat, taken: bool,
                                state': State, after: Writeback, flushing': bool, index': nat)
  {
    if !taken then state' == WritebackReq && after == before && flushing' == before.resumeFlush && index' == index
    else if before.word < 3 then
      state' == WritebackReq && after == before.(word := before.word + 1) && flushing' == before.resumeFlush && index' == index
    else if before.resumeFlush then
      if index + 1 == lines then state' == Idle && !flushing' else state' == FlushScan && flushing' && index' == index + 1
    else !flushing' && state' == if before.resumeBypass then BypassReq else LoadFillReq
  }

  /** Memory serves this edge: it takes what is driven, or answers what is awaited. */
  predicate MemoryServes(state: State, in_: In, req: Option<Access>) {
    && !in_.invalidate
    && (req.Some? ==> in_.memReady)
    && (state == LoadFillWait || state == BypassWait ==> in_.memRvalid)
  }

  /** The cache as its progress claims see it; `bypass` is the request held while a bypass waits for memory. */
  datatype Snapshot = Snapshot(state: State, flushing: bool, flushIndex: nat, responding: bool, pending: seq<Store>,
                               work: nat, holdsLines: bool, holdsDirty: bool,
                               words: seq<Word>, mem: seq<Word>, flight: Flight, bypass: Option<Access>)
  {
    /** A fill waits for a word that will never come. */
    predicate Hung() { state == LoadFillWait && flight == Quiet }

    /** An invalidate meets the word a fill waits for, and no flush takes the fill over. */
    predicate Loses(writeBack: bool, in_: In) {
      state == LoadFillWait && in_.invalidate && in_.memRvalid && !(writeBack && holdsDirty)
    }

    /** An invalidate that starts a flush sends even a hung fill to idle. */
    predicate Rescues(writeBack: bool, in_: In) { in_.invalidate && writeBack && holdsDirty }

    /** A request waits in an otherwise idle cache. */
    predicate Blocked(cpu: Option<Access>, ready: bool) {
      cpu.Some? && !ready && state == Idle && !flushing && !responding
    }
  }

  /** What one edge does besides being a flat-memory step. */
  ghost predicate Edge(writeBack: bool, s: Snapshot, s': Snapshot, in_: In, ready: bool, req: Option<Access>)
  {
    // a request that waits in an idle cache waits for one drain at a time, and no store overtakes it
    && (s.Blocked(in_.cpu, ready) ==>
          && s.pending != [] && req == Some(StoreAccess(s.pending[0]))
          && s'.pending == if in_.memReady then s.pending[1..] else s.pending)
    // an idle cache that admits nothing stays idle and sends its answer off; stores only leave the buffer
    && (ready ==> s.state == Idle && !s.flushing && !s.responding)
    && (s.state == Idle && !s.flushing && !in_.invalidate && !Admits(in_, ready) ==>
          s'.state == Idle && !s'.flushing && !s'.responding)
    && (!Admits(in_, ready) ==> s'.pending == s.pending || (s.pending != [] && s'.pending == s.pending[1..]))
    // no work is left exactly when it is idle and no flush is active; every edge that memory serves brings the
    // cache closer to idle, and a flush closer to its end
    && (s.state == Idle && !s.flushing <==> s.work == 0) && (s'.state == Idle && !s'.flushing <==> s'.work == 0)
    && (MemoryServes(s.state, in_, req) && !Admits(in_, ready) && 0 < s.work ==> s'.work < s.work)
    // a flush ends with no line left and memory equal to the flat words
    && (s.flushing && !s'.flushing ==>
          s'.state == Idle && s'.pending == [] && !s'.holdsLines && s'.mem == s'.words)
    // an invalidate drops every line, or starts a flush, or finds memory already flat
    && (in_.invalidate && !s.flushing ==>
          if !writeBack then !s'.holdsLines else (s'.flushing && s'.flushIndex == 0) || s'.mem == s'.words)
    // a fill hangs exactly if an invalidate meets the word it waits for, and stays so until one starts a flush
    && (s'.Hung() <==> s.Loses(writeBack, in_) || (s.Hung() && !s.Rescues(writeBack, in_)))
    && (s.state == LoadFillWait ==> req == None)
    // a fill asks for a word, waits for it, and asks for the next
    && FillMoves(s, s', in_)
    // a bypass request is driven until memory takes it in an edge without invalidate
    && (s.state == BypassReq ==> req == s.bypass)
    && BypassMoves(s, s', in_)
  }

  ghost predicate FillMoves(s: Snapshot, s': Snapshot, in_: In)
  {
    !in_.invalidate ==>
      && (s.state == LoadFillReq ==> s'.state == if in_.memReady then LoadFillWait else LoadFillReq)
      && (s.state == LoadFillWait && in_.memRvalid && 1 < s.work ==> s'.state == LoadFillReq)
  }

  ghost predicate BypassMoves(s: Snapshot, s': Snapshot, in_: In)
  {
    s.state == BypassReq ==>
      && (s'.state == BypassReq <==> in_.invalidate || !in_.memReady)
      && (s'.state == BypassReq ==> s'.bypass == s.bypass)
  }

  /** The registered response has left, and the oldest store if it was drained. */
  ghost predicate Departed(s: Snapshot, s': Snapshot, drained: bool)
  {
    && (drained ==> s.state == Idle && s.pending != [])
    && (!drained ==> s'.mem == s.mem && s'.flight == s.flight)
    && s' == s.(responding := false, pending := if drained then s.pending[1..] else s.pending, mem := s'.mem,
                flight := s'.flight, work := s'.work)
    && s'.work == s.work - (if drained && s.flushing then 1 else 0)
    && (s.state == Idle && !s.flushing <==> s.work == 0)
  }

  /** The first phase of an edge: the response leaves and the oldest store may drain. */
  ghost predicate Sampling(s: Snapshot, s': Snapshot, in_: In, ready: bool, req: Option<Access>, drained: bool)
  {
    && s'.state == s.state && s'.flushing == s.flushing && s'.flushIndex == s.flushIndex && s'.holdsLines == s.holdsLines
    && s'.holdsDirty == s.holdsDirty && s'.bypass == s.bypass && !s'.responding
    && (s.state == LoadFillWait ==> req == None) && (s.state == BypassReq ==> req == s.bypass)
    && (ready ==> s.state == Idle && !s.flushing && !s.responding)
    && (if drained then s.state == Idle && in_.memReady && s.pending != [] && s'.pending == s.pending[1..]
        else s'.pending == s.pending && s'.mem == s.mem && s'.flight == s.flight)
    && s'.work == s.work - (if drained && s.flushing then 1 else 0)
    && (s.state == Idle && !s.flushing <==> s.work == 0)
    && (s.state == Idle && s.flushing && s.pending != [] ==> req.Some? && drained == in_.memReady)
    && (s.Blocked(in_.cpu, ready) ==>
          s.pending != [] && req == Some(StoreAccess(s.pending[0])) && drained == in_.memReady)
  }

  /** The second phase: the state machine. */
  ghost predicate Advancing(writeBack: bool, s: Snapshot, s': Snapshot, in_: In, ready: bool, req: Option<Access>)
  {
    var admits := Admits(in_, ready);
    && (!admits ==> s'.pending == s.pending)
    && (!in_.invalidate && !admits ==>
          if s.state == Idle then
            (s.flushing ==> s'.work <= s.work && (s.pending == [] ==> s'.work < s.work))
          else MemoryServes(s.state, in_, req) ==> s'.work < s.work)
    && (s.flushing && !s'.flushing ==>
          s'.state == Idle && s'.pending == [] && !s'.holdsLines && s'.mem == s'.words)
    && (in_.invalidate && !s.flushing ==>
          if !writeBack then !s'.holdsLines else (s'.flushing && s'.flushIndex == 0) || s'.mem == s'.words)
    && (s'.Hung() <==> s.Loses(writeBack, in_) || (s.Hung() && !s.Rescues(writeBack, in_)))
    && FillMoves(s, s', in_) && BypassMoves(s, s', in_)
    && (s'.state == Idle && !s'.flushing <==> s'.work == 0)
    && (s.state == Idle && !s.flushing && !in_.invalidate && !admits && !s.responding ==>
          s'.state == Idle && !s'.flushing && !s'.responding)
  }

  /** What the wires of a cycle say about the request that waits and the store that is driven. */
  ghost predicate Sensed(s: Snapshot, cpu: Option<Access>, ready: bool, issues: bool, req: Option<Access>)
  {
    && (s.state == LoadFillWait ==> req == None) && (s.state == BypassReq ==> req == s.bypass)
    && (ready ==> s.state == Idle && !s.flushing && !s.responding)
    && (issues ==> s.state == Idle && s.pending != [] && req == Some(StoreAccess(s.pending[0])))
    && (s.state == Idle && s.flushing && s.pending != [] ==> issues)
    && (s.Blocked(cpu, ready) ==> issues)
  }

  lemma SensedThenDeparted(s: Snapshot, s': Snapshot, in_: In, ready: bool, issues: bool, req: Option<Access>)
    requires Sensed(s, in_.cpu, ready, issues, req) && Departed(s, s', issues && in_.memReady)
    ensures Sampling(s, s', in_, ready, req, issues && in_.memReady)
  {
  }

  lemma PhasesMakeEdge(writeBack: bool, s: Snapshot, t: Snapshot, s': Snapshot, in_: In, ready: bool, req: Option<Access>, drained: bool)
    requires Sampling(s, t, in_, ready, req, drained)
    requires Advancing(writeBack, t, s', in_, ready, req)
    ensures Edge(writeBack, s, s', in_, ready, req)
  {
  }

  class DataCache {
    const g: Geometry
    const depth: nat
    const writeBack: bool

    var state: State
    const valid: array<bool>
    const dirty: array<bool>
    const tags: array<nat>
    const data: array<Line>

    var saved: Access

    var fill: Fill
    const fillData: array<Word>
    var rspValid: bool
    var rspData: Word
    var wb: Writeback
    var flushActive: bool
    var flushIndex: nat

    const ring: array<Store>
    var head: nat
    var tail: nat
    var count: nat

    ghost var bus: Bus
    ghost var flat: Flat

    ghost predicate Shape()
      reads this
    {
      && g.Ok() && 2 <= depth
      && valid.Length == dirty.Length == tags.Length == data.Length == g.lines
      && ring.Length == depth && fillData.Length == 4
      && valid != dirty
      && head < depth && tail < depth && count <= depth
      && tail == (if head + count < depth then head + count else head + count - depth)
      && |bus.mem| == |flat.words| == g.Words() && bus.res == flat.res
      && wb.word < 4 && fill.count < 4
      && flushIndex < g.lines && (flushActive ==> writeBack)
    }

    ghost function View(): (v: Arrays)
      reads this, valid, dirty, tags, data
      requires Shape()
      ensures v.Sized(g)
    {
      Arrays(valid[..], dirty[..], tags[..], data[..])
    }

    /** Buffered stores, oldest first. */
    ghost function Pending(): (p: seq<Store>)
      reads this, ring
      requires Shape()
      ensures |p| == count
    {
      Occupied(ring[..], head, count)
    }

    ghost predicate Control()
      reads this, valid, dirty, tags, data, fillData
      requires Shape() && |bus.mem| == |flat.words| == g.Words()
    {
      && (state != Idle && state != Response ==> count == 0)
      && (rspValid ==> flat.owed == Value(rspData))
      && (flushActive && state != FlushScan && state != WritebackReq ==> flushIndex == 0)
      && (wb.resumeFlush ==> state == WritebackReq)
      && match state
         case LoadFillReq => Filling(g, View(), fill, fillData[..], flat, rspValid) && !flushActive
         case LoadFillWait =>
           && Filling(g, View(), fill, fillData[..], flat, rspValid) && !flushActive
           && (bus.flight == Quiet || bus.flight == Reading(WordAt(LineNo(fill.lineAddr), fill.nextWord)))
         case WritebackReq =>
           && WritingBack(g, View(), wb, fill, saved, flat, bus.mem)
           && writeBack && !rspValid && flushActive == wb.resumeFlush
           && (wb.resumeFlush ==> wb.index == flushIndex && Swept(View(), flushIndex))
         case BypassReq =>
           Bypassing(g, View(), saved, flat.owed) && !rspValid && (flushActive ==> flat.owed == Nothing)
         case BypassWait =>
           AwaitingBus(flat.owed, bus.flight) && !rspValid && !flushActive && (saved.wen ==> saved.isAmo)
         case FlushScan => flushActive && Swept(View(), flushIndex) && Settled(flat.owed, rspValid)
         case _ => Settled(flat.owed, rspValid)
    }

    ghost predicate Valid()
      reads this, valid, dirty, tags, data, ring, fillData
    {
      && Shape()
      && Coherent(g, writeBack, View(), Pending(), bus.mem, flat.words)
      && Control()
    }

    constructor (lines: nat, begin: nat, bytes: nat, depth: nat, writeBack: bool, ghost initial: seq<Word>)
      requires Geometry(lines, begin, bytes).Ok() && 2 <= depth
      requires |initial| == Geometry(lines, begin, bytes).Words()
      ensures Valid() && fresh(valid) && fresh(dirty) && fresh(tags) && fresh(data) && fresh(ring) && fresh(fillData)
      ensures g == Geometry(lines, begin, bytes) && this.depth == depth && this.writeBack == writeBack
      ensures flat == Flat(initial, Nothing, None) && bus == Bus(initial, Quiet, None)
      ensures state == Idle && !rspValid && !flushActive && Pending() == [] && forall i | 0 <= i < lines :: !valid[i]
    {
      g := Geometry(lines, begin, bytes);
      this.depth := depth;
      this.writeBack := writeBack;
      state := Idle;
      valid := new bool[lines](_ => false);
      dirty := new bool[lines](_ => false);
      tags := new nat[lines](_ => 0);
      data := new Line[lines](_ => [ZERO_WORD, ZERO_WORD, ZERO_WORD, ZERO_WORD]);
      saved := Access(0, false, ZERO_WORD, FULL_MASK, false, ADD, false, false, 0);
      fill := Fill(0, 0, 0, 0, 0, 0, false);
      fillData := new Word[4](_ => ZERO_WORD);
      rspValid, rspData := false, ZERO_WORD;
      wb := Writeback(0, 0, 0, false, false);
      flushActive, flushIndex := false, 0;
      ring := new Store[depth](_ => Store(0, ZERO_WORD, FULL_MASK, 0));
      head, tail, count := 0, 0, 0;
      bus, flat := Bus(initial, Quiet, None), Flat(initial, Nothing, None);
      new;
      EmptyIsCoherent(g, writeBack, View(), initial);
    }

    /** The buffer search of `store_buffer_overlaps`. */
    method StoreBufferOverlaps(addr: nat, mask: Mask) returns (found: bool)
      requires Valid()
      ensures found == Overlaps(Pending(), addr, mask)
    {
      hide Coherent, Control;
      found := false;
      var i := 0;
      while i < depth
        invariant i <= depth
        invariant found == exists j | 0 <= j < i && j < count ::
                             WordNo(Pending()[j].addr) == WordNo(addr) && MasksMeet(Pending()[j].wmask, mask)
      {
        if i < count {
          var e := ring[Slot(depth, head, i)];
          assert e == Pending()[i];
          if WordNo(e.addr) == WordNo(addr) && MasksMeet(e.wmask, mask) {
            found := true;
          }
        }
        i := i + 1;
      }
    }

    /** `dirty_any`. */
    method DirtyAny() returns (any: bool)
      requires Shape()
      ensures any == exists i | 0 <= i < g.lines :: valid[i] && dirty[i]
    {
      any := false;
      for i := 0 to g.lines
        invariant any == exists j | 0 <= j < i :: valid[j] && dirty[j]
      {
        if valid[i] && dirty[i] {
          any := true;
        }
      }
    }

    predicate HitNow(addr: nat)
      reads valid, tags
      requires g.Ok() && valid.Length == tags.Length == g.lines
    {
      valid[g.Index(LineNo(addr))] && tags[g.Index(LineNo(addr))] == g.Tag(LineNo(addr))
    }

    /** The handshake wires, for a given answer of the buffer search. */
    function WiresOf(cpu: Option<Access>, memReady: bool, overlap: bool): (w: Wires)
      reads this, valid, tags
      requires g.Ok() && valid.Length == tags.Length == g.lines
    {
      var cacheable := cpu.Some? && Cacheable(g, cpu.value);
      var store := cacheable && cpu.value.wen;
      var hit := cacheable && HitNow(cpu.value.addr);
      var full := count == depth;
      var loadBypass := cacheable && !cpu.value.wen && hit && !overlap;
      var acceptWithoutDrain := store && ((writeBack && hit) || !full);
      var issueValid := state == Idle && count != 0 && (flushActive || (!acceptWithoutDrain && !loadBypass));
      var fullAfterIssue := full && !(issueValid && memReady);
      var ready := state == Idle && !flushActive && !rspValid
                   && (if store then (writeBack && hit) || !fullAfterIssue else loadBypass || count == 0);
      Wires(cacheable, hit, loadBypass, issueValid, ready)
    }

    /** The request driven to memory in this cycle. */
    function BusRequest(cpu: Option<Access>, w: Wires): Option<Access>
      reads this, data, ring
      requires data.Length == g.lines && ring.Length == depth && head < depth
      requires wb.index < g.lines || state != WritebackReq
      requires wb.word < 4
    {
      match state
      case Idle =>
        if w.issueValid then
          Some(StoreAccess(ring[head]))
        else if cpu.Some? && w.ready && !w.cacheable then cpu
        else None
      case LoadFillReq =>
        Some(FillAccess(fill))
      case BypassReq => Some(saved)
      case WritebackReq =>
        Some(WritebackAccess())
      case _ => None
    }

    function WritebackAccess(): Access
      reads this, data
      requires wb.index < data.Length && wb.word < 4
    {
      Access(wb.lineAddr + 8 * wb.word, true, data[wb.index][wb.word], FULL_MASK, false, ADD, false, false, 3)
    }

    /** The flush has ended: every line is invalid and memory holds the flat words. */
    ghost predicate FlushDone()
      reads this, valid
      requires valid.Length == g.lines
    {
      && state == Idle && !flushActive && count == 0
      && (forall i | 0 <= i < g.lines :: !valid[i])
      && bus.mem == flat.words
    }

    /** The registered response goes out. */
    method Deliver() returns (rvalid: bool, rdata: Word)
      requires Valid()
      modifies this`rspValid, this`flat
      ensures Valid() && !rspValid
      ensures rvalid == old(rspValid) && rdata == rspData
      ensures rvalid ==> old(flat).owed == Value(rdata)
      ensures flat == if rvalid then old(flat).(owed := Nothing) else old(flat)
    {
      hide Coherent;
      rvalid, rdata := rspValid, rspData;
      rspValid := false;
      if rvalid {
        flat := flat.(owed := Nothing);
      }
    }

    /** The oldest buffered store is accepted by memory. */
    method Drain()
      requires Valid() && state == Idle && count != 0
      modifies this`head, this`count, this`bus
      ensures Valid() && Pending() == old(Pending())[1..]
      ensures
        var e := old(Pending())[0];
        g.IsRam(e.addr) && e == old(ring[head])
        && bus == Bus(old(bus.mem)[RamIx(g, e.addr) := Merge(old(bus.mem)[RamIx(g, e.addr)], e.wdata, e.wmask)], Device, old(bus.res))
    {
      hide LinesAgree, MemoryAgrees;
      ghost var pending := Pending();
      PopHead(ring[..], head, count);
      DrainKeeps(g, writeBack, View(), pending, bus.mem, flat.words);
      ghost var e := pending[0];
      bus := Bus(bus.mem[RamIx(g, e.addr) := Merge(bus.mem[RamIx(g, e.addr)], e.wdata, e.wmask)], Device, bus.res);
      head, count := if head + 1 < depth then head + 1 else head + 1 - depth, count - 1;
      assert Pending() == pending[1..];
    }

    /** The idle state, about to take a request. */
    ghost predicate Open()
      reads this, valid, dirty, tags, data, ring, fillData
    {
      Valid() && state == Idle && !flushActive && !rspValid
    }

    /** A store enters the buffer, and the line too on a hit. */
    method EnqueueStore(r: Access, hit: bool)
      requires Open() && count < depth
      requires Cacheable(g, r) && r.wen && hit == Hit(g, View(), LineNo(r.addr)) && !(writeBack && hit)
      modifies this`count, this`tail, this`flat, data, ring
      ensures Valid()
      ensures flat == Accept(g, old(flat), r)
      ensures Pending() == old(Pending()) + [Store(r.addr, r.wdata, r.wmask, r.funct3)]
    {
      hide Coherent, Filling, WritingBack, Bypassing, Swept, Occupied, Hit, AwaitingBus;
      ghost var v, pending := View(), Pending();
      var s := Store(r.addr, r.wdata, r.wmask, r.funct3);
      EnqueueKeeps(g, writeBack, v, pending, bus.mem, flat.words, s);
      PushTail(ring[..], head, count, s);
      if hit {
        var i := g.Index(LineNo(r.addr));
        data[i] := data[i][Lane(r.addr) := Merge(data[i][Lane(r.addr)], r.wdata, r.wmask)];
        assert View() == Hold(v, i, Lane(r.addr), Merge(v.data[i][Lane(r.addr)], r.wdata, r.wmask));
      }
      ring[tail] := s;
      tail, count := if tail + 1 < depth then tail + 1 else tail + 1 - depth, count + 1;
      flat := Accept(g, flat, r);
      assert Pending() == pending + [s];
    }

    /** Write-back store hit: the line becomes dirty and nothing is buffered. */
    method StoreHitDirty(r: Access)
      requires Open()
      requires writeBack && Cacheable(g, r) && r.wen && Hit(g, View(), LineNo(r.addr))
      modifies this`flat, data, dirty
      ensures Valid()
      ensures flat == Accept(g, old(flat), r)
    {
      hide LinesAgree, MemoryAgrees;
      ghost var v := View();
      DirtyStoreKeeps(g, v, Pending(), bus.mem, flat.words, Store(r.addr, r.wdata, r.wmask, r.funct3));
      var i, k := g.Index(LineNo(r.addr)), Lane(r.addr);
      var w := Merge(data[i][k], r.wdata, r.wmask);
      data[i] := data[i][k := w];
      dirty[i] := true;
      flat := Accept(g, flat, r);
      assert View() == Hold(v, i, k, w).(dirty := v.dirty[i := true]);
    }

    /** The place of a missing line is taken by a dirty one. */
    predicate VictimDirty(addr: nat)
      reads valid, dirty
      requires g.Ok() && valid.Length == dirty.Length == g.lines
    {
      writeBack && valid[g.Index(LineNo(addr))] && dirty[g.Index(LineNo(addr))]
    }

    /** Where an accepted load or bypass request goes. */
    function NextOf(r: Access, memReady: bool): State
      reads valid, dirty, tags
      requires g.Ok() && valid.Length == dirty.Length == tags.Length == g.lines
    {
      if Cacheable(g, r) then
        if HitNow(r.addr) then Response else if VictimDirty(r.addr) then WritebackReq else LoadFillReq
      else if HitsDirty(r) then WritebackReq
      else if !memReady then BypassReq
      else if r.wen && !r.isAmo then Idle else BypassWait
    }

    /** A load hit is answered from the line in the next cycle. */
    method LoadHit(r: Access)
      requires Open()
      requires Cacheable(g, r) && !r.wen && Hit(g, View(), LineNo(r.addr))
      modifies this`rspValid, this`rspData, this`flat, this`state
      ensures Valid() && state == Response
      ensures flat == Accept(g, old(flat), r)
    {
      hide LinesAgree, MemoryAgrees;
      HitReadsFlat(g, writeBack, View(), Pending(), bus.mem, flat.words, r.addr);
      rspData := data[g.Index(LineNo(r.addr))][Lane(r.addr)];
      rspValid := true;
      flat := Accept(g, flat, r);
      state := Response;
    }

    /** A load miss starts a fill, after writing back a dirty victim. */
    method LoadMiss(r: Access)
      requires Open() && count == 0
      requires Cacheable(g, r) && !r.wen && !Hit(g, View(), LineNo(r.addr))
      modifies this`fill, this`wb, this`state, this`flat
      ensures Valid() && state == (if old(VictimDirty(r.addr)) then WritebackReq else LoadFillReq)
      ensures flat == Accept(g, old(flat), r)
    {
      hide LinesAgree, MemoryAgrees;
      var i := g.Index(LineNo(r.addr));
      LineStart(g, r.addr);
      fill := Fill(32 * LineNo(r.addr), i, g.Tag(LineNo(r.addr)), Lane(r.addr), Lane(r.addr), 0, true);
      flat := Accept(g, flat, r);
      if writeBack && valid[i] && dirty[i] {
        wb := VictimOf(g, tags[i], wb, i).(resumeBypass := false);
        state := WritebackReq;
      } else {
        state := LoadFillReq;
      }
    }

    /** An atomic to a dirty line: the line is written back first. The request is already on the bus in
        this cycle, so memory may run it once on the stale word; the writeback then overwrites the word, but
        what it did to the reservation stays. */
    method BypassDirty(r: Access, in_: In, ghost unit: AtomicUnit) returns (ghost h: Hidden)
      requires Open() && count == 0 && BusOk(g, bus, in_)
      requires r.isAmo && g.IsRam(r.addr) && writeBack && Hit(g, View(), LineNo(r.addr)) && dirty[g.Index(LineNo(r.addr))]
      modifies this`saved, this`wb, this`state, this`flat, this`bus
      ensures Valid() && state == WritebackReq
      ensures bus == BusNext(g, old(bus), Some(r), in_, unit)
      ensures h == (if in_.memReady then EarlyStep else NoStep) && Accept(g, old(flat), r).owed == AtomicPending(r)
      ensures flat == TakeHidden(g, Accept(g, old(flat), r), h, in_.memRdata, unit)
    {
      hide LinesAgree, MemoryAgrees, BufferOk, WritingBack, Filling, Bypassing, Swept, BusNext, Accept;
      var i := g.Index(LineNo(r.addr));
      StaleAtomic(g, View(), wb, fill, r, flat, bus, in_, unit);
      saved := r;
      h := if in_.memReady then EarlyStep else NoStep;
      flat := TakeHidden(g, Accept(g, flat, r), h, in_.memRdata, unit);
      bus := BusNext(g, bus, Some(r), in_, unit);
      wb := VictimOf(g, tags[i], wb, i).(resumeBypass := true);
      state := WritebackReq;
    }

    /** The saved request meets memory for the first time, with no line in the way. */
    method IssueBypass(r: Access, in_: In, ghost unit: AtomicUnit) returns (ghost h: Hidden)
      requires Valid() && !rspValid && BusOk(g, bus, in_) && state == BypassReq
      requires saved == r && Bypassing(g, View(), r, flat.owed) && (flushActive ==> flat.owed == Nothing)
      modifies this`state, this`flat, this`bus
      ensures Valid()
      ensures bus == BusNext(g, old(bus), Some(r), in_, unit)
      ensures h == (if in_.memReady && g.IsRam(r.addr) then AtomicStep else NoStep) && (h == AtomicStep ==> old(flat).owed == AtomicPending(r))
      ensures flat == TakeHidden(g, old(flat), h, in_.memRdata, unit)
      ensures state == if in_.memReady then if r.wen && !r.isAmo then Idle else BypassWait else BypassReq
    {
      hide Coherent, Filling, WritingBack, Swept, RamIx, Hit, Occupied;
      h := NoStep;
      assert Pending() == [];
      if in_.memReady && g.IsRam(r.addr) {
        h := AtomicStep;
        AtomicTaken(g, writeBack, View(), r, flat, bus, in_, unit);
        flat := TakeHidden(g, flat, AtomicStep, in_.memRdata, unit);
      }
      bus := BusNext(g, bus, Some(r), in_, unit);
      state := if in_.memReady then if r.wen && !r.isAmo then Idle else BypassWait else BypassReq;
    }

    method IssueSaved(in_: In, ghost unit: AtomicUnit) returns (ghost h: Hidden)
      requires Valid() && !rspValid && BusOk(g, bus, in_) && state == BypassReq
      modifies this`state, this`flat, this`bus
      ensures Valid()
      ensures bus == BusNext(g, old(bus), Some(saved), in_, unit)
      ensures h == NoStep || (h == AtomicStep && in_.memReady && old(flat).owed.AtomicPending? && g.IsRam(old(flat).owed.req.addr))
      ensures flat == TakeHidden(g, old(flat), h, in_.memRdata, unit)
      ensures state == if in_.memReady then if saved.wen && !saved.isAmo then Idle else BypassWait else BypassReq
    {
      hide LinesAgree, MemoryAgrees, BufferOk;
      h := IssueBypass(saved, in_, unit);
    }

    /** In write-through mode no line is dirty. */
    lemma NoDirtyLine()
      requires Valid()
      ensures !writeBack ==> forall i | 0 <= i < g.lines :: !dirty[i]
    {
      hide LinesAgree, MemoryAgrees, BufferOk, Control;
    }

    /** An atomic finds its line dirty. */
    predicate HitsDirty(r: Access)
      reads valid, dirty, tags
      requires g.Ok() && valid.Length == tags.Length == dirty.Length == g.lines
    {
      writeBack && r.isAmo && g.IsRam(r.addr) && HitNow(r.addr) && dirty[g.Index(LineNo(r.addr))]
    }

    /** An atomic or a device access goes straight to memory; an atomic drops a clean line it hits. */
    method Bypass(r: Access, in_: In, ghost unit: AtomicUnit) returns (ghost h: Hidden)
      requires Open() && count == 0 && BusOk(g, bus, in_)
      requires !Cacheable(g, r)
      modifies this`saved, this`wb, this`state, this`flat, this`bus, valid, dirty
      ensures Valid() && state != LoadFillWait
      ensures state == old(NextOf(r, in_.memReady)) && (state == BypassReq ==> saved == r)
      ensures bus == BusNext(g, old(bus), Some(r), in_, unit)
      ensures h == if !in_.memReady || !g.IsRam(r.addr) then NoStep else if old(HitsDirty(r)) then EarlyStep else AtomicStep
      ensures Atomically(h) ==> Accept(g, old(flat), r).owed == AtomicPending(r)
      ensures flat == TakeHidden(g, Accept(g, old(flat), r), h, in_.memRdata, unit)
    {
      hide Coherent, Control, Bypassing, TakeHidden, Accept, BusNext, BusOk, Occupied, RamIx;
      var i := g.Index(LineNo(r.addr));
      NoDirtyLine();
      if r.isAmo && g.IsRam(r.addr) && HitNow(r.addr) && writeBack && dirty[i] {
        h := BypassDirty(r, in_, unit);
      } else {
        if r.isAmo && g.IsRam(r.addr) && HitNow(r.addr) {
          DropLine(i);
        }
        TakeOver(r);
        h := IssueBypass(r, in_, unit);
      }
    }

    /** A clean line is dropped. */
    method DropLine(i: nat)
      requires Open() && i < g.lines && !(writeBack && valid[i] && dirty[i])
      modifies valid, dirty
      ensures Open() && !valid[i] && forall j | 0 <= j < g.lines && j != i :: valid[j] == old(valid[j])
    {
      hide LinesAgree, MemoryAgrees, BufferOk, Filling, WritingBack, Bypassing, Swept, Occupied;
      ghost var v := View();
      valid[i], dirty[i] := false, false;
      DropKeeps(g, writeBack, v, Pending(), bus.mem, flat.words, View());
    }

    /** A request that no line holds becomes the saved one. */
    method TakeOver(r: Access)
      requires Open() && count == 0 && !Cacheable(g, r)
      requires r.isAmo && g.IsRam(r.addr) ==> !Hit(g, View(), LineNo(r.addr))
      modifies this`saved, this`state, this`flat
      ensures Valid() && state == BypassReq && saved == r && !rspValid
      ensures flat == Accept(g, old(flat), r) && Bypassing(g, View(), r, flat.owed)
    {
      hide Coherent, Filling, WritingBack, Swept, Hit, RamIx, Occupied;
      ghost var v := View();
      assert flat.owed == Nothing;
      assert Bypassing(g, v, r, Accept(g, flat, r).owed);
      saved := r;
      flat := Accept(g, flat, r);
      state := BypassReq;
      assert View() == v;
    }

    /** LoadFillReq: ask for the next word of the line. */
    method FillRequest(in_: In, ghost unit: AtomicUnit)
      requires Valid() && state == LoadFillReq && BusOk(g, bus, in_) && !rspValid
      modifies this`state, this`bus
      ensures Valid()
      ensures bus == BusNext(g, old(bus), Some(FillAccess(fill)), in_, unit)
      ensures state == if in_.memReady then LoadFillWait else LoadFillReq
    {
      hide LinesAgree, MemoryAgrees, BufferOk;
      FillAddress(g, fill);
      bus := BusNext(g, bus, Some(FillAccess(fill)), in_, unit);
      if in_.memReady {
        state := LoadFillWait;
      }
    }

    /** LoadFillWait: take a word, answer the critical one, and install the line after the fourth. */
    method FillWait(in_: In, ghost unit: AtomicUnit)
      requires Valid() && state == LoadFillWait && BusOk(g, bus, in_) && !rspValid
      modifies this`state, this`bus, this`fill, this`rspValid, this`rspData, fillData, valid, dirty, tags, data
      ensures Valid()
      ensures bus == BusNext(g, old(bus), None, in_, unit)
      ensures if !in_.memRvalid then state == LoadFillWait && fill == old(fill)
              else if old(fill.count) < 3 then state == LoadFillReq && fill.count == old(fill.count) + 1
              else state == Idle && !flushActive && (old(fill.allocate) ==> Hit(g, View(), LineNo(old(fill.lineAddr))))
    {
      hide Hit, Coherent, Control, BusNext, BusOk, HoldsWord, Occupied, WordAt, LineNo;
      if in_.memRvalid {
        AwaitedWord(in_);
        if fill.count == WORDS_PER_LINE - 1 {
          FillLast(in_.memRdata);
        } else {
          FillMore(in_.memRdata);
        }
      }
      BusIdle(in_, unit);
    }

    /** The word a fill waits for is the flat word. */
    lemma AwaitedWord(in_: In)
      requires Valid() && state == LoadFillWait && BusOk(g, bus, in_) && in_.memRvalid
      ensures HoldsWord(g, flat.words, WordAt(LineNo(fill.lineAddr), fill.nextWord), in_.memRdata)
    {
      hide Coherent, FillWords, FillOwes, BusOk, Occupied, WordAt, LineNo;
      assert Pending() == [];
      FetchedIsFlat(g, writeBack, View(), fill, bus, flat.words, in_);
    }

    /** A cycle in which nothing is driven: at most an answer goes by. */
    method BusIdle(in_: In, ghost unit: AtomicUnit)
      requires Valid() && BusOk(g, bus, in_) && state != BypassWait
      modifies this`bus
      ensures Valid()
      ensures bus == BusNext(g, old(bus), None, in_, unit)
    {
      hide LinesAgree, MemoryAgrees, BufferOk, FillRegs, FillWords, FillOwes, Filling;
      bus := BusNext(g, bus, None, in_, unit);
    }

    method FillMore(w: Word)
      requires Valid() && state == LoadFillWait && !rspValid && fill.count < 3
      requires HoldsWord(g, flat.words, WordAt(LineNo(fill.lineAddr), fill.nextWord), w)
      modifies this`state, this`fill, this`rspValid, this`rspData, fillData
      ensures Valid() && state == LoadFillReq && fill.count == old(fill.count) + 1
    {
      hide Coherent, Filling, WritingBack, Bypassing, Swept, Occupied, HoldsWord, WordAt, LineNo;
      FillStep(g, View(), fill, fillData[..], flat, rspValid, w);
      ghost var v, fetched := View(), fillData[..][fill.nextWord := w];
      fillData[fill.nextWord] := w;
      assert fillData[..] == fetched && View() == v;
      if fill.nextWord == fill.responseWord {
        rspData, rspValid := w, true;
      }
      fill := fill.(nextWord := (fill.nextWord + 1) % 4, count := fill.count + 1);
      state := LoadFillReq;
    }

    method FillLast(w: Word)
      requires Valid() && state == LoadFillWait && !rspValid && fill.count == 3
      requires HoldsWord(g, flat.words, WordAt(LineNo(fill.lineAddr), fill.nextWord), w)
      modifies this`state, this`fill, this`rspValid, this`rspData, fillData, valid, dirty, tags, data
      ensures Valid() && state == Idle && !flushActive
      ensures old(fill.allocate) ==> Hit(g, View(), LineNo(old(fill.lineAddr)))
    {
      hide LinesAgree, MemoryAgrees, BufferOk, FillWords, FillOwes, HoldsWord, LineAgrees;
      ghost var v := View();
      FillTake(g, fill, fillData[..], flat.words, w);
      ghost var fetched := fillData[..][fill.nextWord := w];
      fillData[fill.nextWord] := w;
      assert fillData[..] == fetched;
      assert fill.nextWord != fill.responseWord;  // the critical word came first
      if fill.allocate {
        Install(v);
      }
      fill := fill.(allocate := false);
      state := Idle;
    }

    /** The four fetched words become the line at the fill index. */
    method Install(ghost v: Arrays)
      requires Shape() && v == View() && FillRegs(g, fill) && |flat.words| == g.Words()
      requires Coherent(g, writeBack, v, [], bus.mem, flat.words)
      requires LineAgrees(g, flat.words, LineNo(fill.lineAddr), fillData[..])
      requires !(v.valid[fill.index] && v.dirty[fill.index])
      modifies valid, dirty, tags, data
      ensures Coherent(g, writeBack, View(), [], bus.mem, flat.words)
      ensures Hit(g, View(), LineNo(fill.lineAddr))
    {
      hide LinesAgree, MemoryAgrees, BufferOk, LineAgrees;
      InstallKeeps(g, writeBack, v, bus.mem, flat.words, LineNo(fill.lineAddr), fillData[..]);
      valid[fill.index] := true;
      dirty[fill.index] := false;
      tags[fill.index] := fill.tag;
      data[fill.index] := fillData[..];
    }

    /** WritebackReq: one word of the dirty line goes out; after the fourth the line is clean. */
    method WritebackStep(in_: In, ghost unit: AtomicUnit)
      requires Valid() && state == WritebackReq && BusOk(g, bus, in_)
      modifies this`state, this`bus, this`wb, this`flushActive, this`flushIndex, valid, dirty
      ensures Valid()
      ensures bus == BusNext(g, old(bus), Some(old(WritebackAccess())), in_, unit)
      ensures WritebackEdge(g.lines, old(wb), old(flushIndex), in_.memReady, state, wb, flushActive, flushIndex)
      ensures old(flushActive) == old(wb.resumeFlush) && (old(flushActive) && !flushActive ==> FlushDone())
    {
      hide Coherent, Control, WrittenBack, BusNext, BusOk, Occupied, FlushDone;
      FlushWritesBack();
      PutWord(in_, unit);
      if in_.memReady {
        WordTaken();
      }
    }

    lemma FlushWritesBack()
      requires Valid() && state == WritebackReq
      ensures flushActive == wb.resumeFlush && wb.index < g.lines
    {
      hide Coherent, WrittenBack;
    }

    method WordTaken()
      requires Valid() && state == WritebackReq
      requires wb.index < g.lines && WrittenBack(g, View(), bus.mem, wb.index, wb.word + 1)
      modifies this`state, this`wb, this`flushActive, this`flushIndex, valid, dirty
      ensures Valid()
      ensures WritebackEdge(g.lines, old(wb), old(flushIndex), true, state, wb, flushActive, flushIndex)
      ensures old(wb.resumeFlush) && !flushActive ==> FlushDone()
    {
      hide Coherent, Control, WrittenBack, Occupied, FlushDone;
      if wb.word == WORDS_PER_LINE - 1 {
        Evicted();
      } else {
        NextWord();
      }
    }

    /** The word on the bus reaches memory if memory is ready; driving it again is harmless. */
    method PutWord(in_: In, ghost unit: AtomicUnit)
      requires Valid() && state == WritebackReq && BusOk(g, bus, in_)
      modifies this`bus
      ensures Valid()
      ensures bus == BusNext(g, old(bus), Some(WritebackAccess()), in_, unit)
      ensures wb.word < 4 && wb.index < g.lines && WrittenBack(g, View(), bus.mem, wb.index, if in_.memReady then wb.word + 1 else wb.word)
    {
      hide LinesAgree, MemoryAgrees, BufferOk, FillOwes, FillRegs, WrittenBack;
      VictimWord(g, View(), wb);
      WriteWordKeeps(g, View(), bus.mem, flat.words, wb.index, wb.word);
      if in_.memReady {
        WordWritten(g, View(), bus.mem, wb.index, wb.word);
        WrittenLess(g, View(), BusNext(g, bus, Some(WritebackAccess()), in_, unit).mem, wb.index, wb.word + 1, wb.word);
      }
      bus := BusNext(g, bus, Some(WritebackAccess()), in_, unit);
    }

    method NextWord()
      requires Valid() && state == WritebackReq && wb.word < 3
      requires wb.index < g.lines && WrittenBack(g, View(), bus.mem, wb.index, wb.word + 1)
      modifies this`wb
      ensures Valid()
      ensures WritebackEdge(g.lines, old(wb), flushIndex, true, state, wb, flushActive, flushIndex)
      ensures flushActive == wb.resumeFlush
    {
      hide LinesAgree, MemoryAgrees, BufferOk, FillOwes, FillRegs, WrittenBack;
      wb := wb.(word := wb.word + 1);
    }

    /** All four words of the victim are in memory. */
    method Evicted()
      requires Valid() && state == WritebackReq && wb.index < g.lines && WrittenBack(g, View(), bus.mem, wb.index, 4)
      modifies this`state, this`wb, this`flushActive, this`flushIndex, valid, dirty
      ensures Valid()
      ensures old(wb.word) == 3 ==> WritebackEdge(g.lines, old(wb), old(flushIndex), true, state, wb, flushActive, flushIndex)
      ensures old(wb.resumeFlush) && !flushActive ==> FlushDone()
    {
      hide Coherent, WrittenBack, FillOwes, LineNo;
      ghost var v := View();
      ghost var keep := !wb.resumeFlush && !wb.resumeBypass;
      CleanKeeps(g, v, bus.mem, flat.words, wb.index, keep);
      dirty[wb.index] := false;
      if wb.resumeFlush || wb.resumeBypass {
        valid[wb.index] := false;
      }
      assert View() == v.(dirty := v.dirty[wb.index := false], valid := v.valid[wb.index := keep]);
      if wb.resumeFlush {
        wb := wb.(resumeFlush := false);
        SweepOne(wb.index);
      } else if wb.resumeBypass {
        DroppedLineMisses(g, View(), LineNo(saved.addr), v.tags[wb.index], wb.index);
        ResumeBypass();
      } else {
        ResumeFill();
      }
    }

    /** The victim is gone: the atomic that waited for it goes to memory. */
    method ResumeBypass()
      requires Shape() && Coherent(g, writeBack, View(), Pending(), bus.mem, flat.words)
      requires count == 0 && !flushActive && !wb.resumeFlush && !rspValid
      requires Bypassing(g, View(), saved, flat.owed)
      modifies this`state, this`wb
      ensures Valid() && state == BypassReq
    {
      hide Coherent, Bypassing, Occupied;
      ghost var v := View();
      wb := wb.(resumeBypass := false);
      state := BypassReq;
      assert View() == v;
    }

    /** The victim is clean: the fill that waited for its place starts. */
    method ResumeFill()
      requires Shape() && Coherent(g, writeBack, View(), Pending(), bus.mem, flat.words)
      requires count == 0 && !flushActive && !wb.resumeFlush && !rspValid
      requires FillRegs(g, fill) && fill.count == 0 && FillOwes(g, fill, flat) && !(valid[fill.index] && dirty[fill.index])
      modifies this`state
      ensures Valid() && state == LoadFillReq
    {
      hide Coherent, FillOwes, Occupied, LineNo;
      state := LoadFillReq;
    }

    /** The scan leaves line `i`, now invalid: on to the next one, or the flush ends. */
    method SweepOne(i: nat)
      requires Shape() && Coherent(g, writeBack, View(), Pending(), bus.mem, flat.words)
      requires count == 0 && flushActive && !wb.resumeFlush && !rspValid && flat.owed == Nothing
      requires i == flushIndex < g.lines && !valid[i] && Swept(View(), i)
      modifies this`state, this`flushActive, this`flushIndex
      ensures Valid()
      ensures if i == g.lines - 1 then FlushDone() else state == FlushScan && flushActive && flushIndex == i + 1
    {
      hide LinesAgree, MemoryAgrees, BufferOk;
      if i == g.lines - 1 {
        assert Pending() == [];
        CleanMeansFlat(g, writeBack, View(), bus.mem, flat.words);
        flushActive := false;
        state := Idle;
      } else {
        flushIndex := i + 1;
        state := FlushScan;
      }
    }

    /** FlushScan: drop a clean line, or start writing back a dirty one. */
    method Scan(in_: In, ghost unit: AtomicUnit)
      requires Valid() && state == FlushScan && !rspValid && BusOk(g, bus, in_)
      modifies this`state, this`bus, this`wb, this`flushActive, this`flushIndex, valid, dirty
      ensures Valid()
      ensures bus == BusNext(g, old(bus), None, in_, unit)
      ensures
        if old(valid[flushIndex] && dirty[flushIndex]) then
          state == WritebackReq && wb.word == 0 && wb.resumeFlush && flushActive && flushIndex == old(flushIndex)
        else if old(flushIndex) == g.lines - 1 then FlushDone()
        else state == FlushScan && flushActive && flushIndex == old(flushIndex) + 1
    {
      hide Coherent, Control, BusNext, BusOk, FlushDone;
      BusIdle(in_, unit);
      ScanLine();
    }

    /** The next line of the scan. */
    method ScanLine()
      requires Valid() && state == FlushScan && !rspValid
      modifies this`state, this`wb, this`flushActive, this`flushIndex, valid, dirty
      ensures Valid()
      ensures
        if old(valid[flushIndex] && dirty[flushIndex]) then
          state == WritebackReq && wb.word == 0 && wb.resumeFlush && flushActive && flushIndex == old(flushIndex)
        else if old(flushIndex) == g.lines - 1 then FlushDone()
        else state == FlushScan && flushActive && flushIndex == old(flushIndex) + 1
    {
      hide Coherent, Occupied, Filling, Bypassing;
      var i := flushIndex;
      if valid[i] && dirty[i] {
        wb := VictimOf(g, tags[i], wb, i).(resumeBypass := false, resumeFlush := true);
        state := WritebackReq;
      } else {
        ghost var v := View();
        valid[i], dirty[i] := false, false;
        DropKeeps(g, writeBack, v, Pending(), bus.mem, flat.words, View());
        SweepOne(i);
      }
    }

    /** BypassWait: the bus answers an atomic or a device access. */
    method BypassAnswer(in_: In, ghost unit: AtomicUnit) returns (ghost h: Hidden)
      requires Valid() && state == BypassWait && BusOk(g, bus, in_)
      modifies this`state, this`bus, this`rspValid, this`rspData, this`flat
      ensures Valid()
      ensures bus == BusNext(g, old(bus), None, in_, unit)
      ensures h == NoStep || (h == DeviceStep && old(flat).owed == DevicePending && in_.memRvalid)
      ensures flat == TakeHidden(g, old(flat), h, in_.memRdata, unit)
      ensures state == if in_.memRvalid then Response else BypassWait
    {
      hide Coherent, Occupied, Filling, WritingBack, Bypassing, Swept, BusTakes, RamIx;
      h := NoStep;
      if in_.memRvalid {
        if flat.owed == DevicePending {
          h := DeviceStep;
          flat := TakeHidden(g, flat, h, in_.memRdata, unit);
        }
        assert !saved.wen || saved.isAmo;  // a device store never waits here
        rspData, rspValid := in_.memRdata, true;
        state := Response;
      }
      bus := BusNext(g, bus, None, in_, unit);
    }

    /** An idle cache takes a request. */
    method Take(r: Access, in_: In, w: Wires, drained: bool, ghost unit: AtomicUnit) returns (ghost h: Hidden)
      requires Open() && Admissible(g, depth, writeBack, View(), r, w, count, drained)
      requires !drained ==> BusOk(g, bus, in_)
      modifies this, valid, dirty, data, ring
      ensures Valid() && state != LoadFillWait
      ensures Atomically(h) ==> Accept(g, old(flat), r).owed == AtomicPending(r) && g.IsRam(r.addr)
      ensures h != DeviceStep && (h == EarlyStep <==> old(HitsDirty(r)) && in_.memReady)
      ensures !(Cacheable(g, r) && r.wen) ==> state == old(NextOf(r, in_.memReady))
      ensures state == BypassReq ==> saved == r
      ensures flat == TakeHidden(g, Accept(g, old(flat), r), h, in_.memRdata, unit)
      ensures bus == if drained then old(bus) else BusNext(g, old(bus), if w.cacheable then None else Some(r), in_, unit)
    {
      hide Coherent, BusTakes;
      h := NoStep;
      if !w.cacheable {
        h := Bypass(r, in_, unit);
      } else {
        if !r.wen && w.hit {
          LoadHit(r);
        } else if !r.wen {
          LoadMiss(r);
        } else if writeBack && w.hit {
          StoreHitDirty(r);
        } else {
          EnqueueStore(r, w.hit);
        }
        if !drained { BusIdle(in_, unit); }
      }
    }

    /** Idle: start a flush scan, or take the processor's request. */
    method IdleStep(in_: In, w: Wires, drained: bool, ghost unit: AtomicUnit) returns (ghost h: Hidden)
      requires Valid() && state == Idle && !rspValid
      requires !drained ==> BusOk(g, bus, in_)
      requires in_.cpu.Some? && w.ready ==> !flushActive && Admissible(g, depth, writeBack, View(), in_.cpu.value, w, count, drained)
      modifies this, valid, dirty, data, ring
      ensures Valid() && state != LoadFillWait
      ensures
        var r := if in_.cpu.Some? && w.ready then in_.cpu else None;
        && (Atomically(h) ==> r.Some? && Accept(g, old(flat), r.value).owed == AtomicPending(r.value) && g.IsRam(r.value.addr))
        && h != DeviceStep
        && (h == EarlyStep <==> r.Some? && old(HitsDirty(in_.cpu.value)) && in_.memReady)
        && (r.Some? && !(Cacheable(g, r.value) && r.value.wen) ==> state == old(NextOf(in_.cpu.value, in_.memReady)))
        && (r.Some? && state == BypassReq ==> saved == r.value)
        && flat == TakeHidden(g, if r.Some? then Accept(g, old(flat), r.value) else old(flat), h, in_.memRdata, unit)
        && bus == (if drained then old(bus)
                   else BusNext(g, old(bus), if r.Some? && !w.cacheable then r else None, in_, unit))
      ensures !(in_.cpu.Some? && w.ready) ==>
                Pending() == old(Pending()) && flushActive == old(flushActive) && flushIndex == old(flushIndex)
                && state == (if flushActive && count == 0 then FlushScan else Idle) && !rspValid
    {
      hide Coherent, HitsDirty, NextOf, BusTakes, Accept, HitNow, Occupied;
      h := NoStep;
      if flushActive {
        if count == 0 {
          StartScan();
        }
        if !drained { BusIdle(in_, unit); }
      } else if in_.cpu.Some? && w.ready {
        h := Take(in_.cpu.value, in_, w, drained, unit);
      } else {
        if !drained { BusIdle(in_, unit); }
      }
    }

    method StartScan()
      requires Valid() && state == Idle && flushActive && count == 0
      modifies this`state
      ensures Valid() && state == FlushScan
    {
      hide LinesAgree, MemoryAgrees, BufferOk;
      state := FlushScan;
    }

    /** The edge of an invalidate: the state machine itself does not step. */
    method Invalidate(in_: In, drained: bool, req: Option<Access>, ghost unit: AtomicUnit)
      requires Valid() && !rspValid && flat.owed == Nothing
      requires if drained then state == Idle else BusOk(g, bus, in_) && req == BusRequest(None, Wires(false, false, false, false, false))
      modifies this`fill, this`wb, this`state, this`flushActive, this`flushIndex, this`bus, valid, dirty
      ensures Valid()
      ensures bus == if drained then old(bus) else BusNext(g, old(bus), req, in_, unit)
      ensures state == if AbortsFill(old(flushActive), old(state), old(DirtyLine()), count) then Idle else old(state)
      ensures !writeBack ==> forall i | 0 <= i < g.lines :: !valid[i]
      ensures old(flushActive) ==> unchanged(this`state, this`wb, this`flushActive, this`flushIndex, valid, dirty)
      ensures !old(flushActive) ==> InvalidateEffect()
      ensures old(flushActive) ==> flushActive
      ensures state == LoadFillWait ==> (bus.flight == Quiet <==> old(bus.flight) == Quiet || in_.memRvalid)
    {
      assert flushActive ==> writeBack;
      hide Coherent, Control;
      if !drained {
        InvalidateBus(in_, req, unit);
      }
      if !flushActive {
        CancelInstall();
        if writeBack {
          var any := DirtyAny();
          if any || count != 0 {
            StartFlush();
          } else {
            NothingDirty();
          }
        } else {
          InvalidateAll();
        }
      }
    }

    ghost predicate DirtyLine()
      reads valid, dirty
      requires valid.Length == dirty.Length == g.lines
    {
      exists i | 0 <= i < g.lines :: valid[i] && dirty[i]
    }

    /** A write-back flush that has work to do sends every state but the bus-owning ones to Idle. */
    ghost predicate AbortsFill(flushing: bool, s: State, anyDirty: bool, pending: nat)
      reads this
    {
      writeBack && !flushing && (anyDirty || pending != 0) && s != WritebackReq && s != BypassReq && s != BypassWait
    }

    method InvalidateBus(in_: In, req: Option<Access>, ghost unit: AtomicUnit)
      requires Valid() && !rspValid && flat.owed == Nothing && BusOk(g, bus, in_)
      requires req == BusRequest(None, Wires(false, false, false, false, false))
      modifies this`bus
      ensures Valid()
      ensures bus == BusNext(g, old(bus), req, in_, unit)
    {
      hide LinesAgree, MemoryAgrees, BufferOk, FillWords, FillOwes, WrittenBack;
      if state == WritebackReq {
        PutWord(in_, unit);
      } else {
        if state == LoadFillReq {
          FillAddress(g, fill);
        }
        bus := BusNext(g, bus, req, in_, unit);
      }
    }

    method CancelInstall()
      requires Valid()
      modifies this`fill
      ensures Valid() && fill == old(fill).(allocate := false)
    {
      hide LinesAgree, MemoryAgrees, BufferOk;
      fill := fill.(allocate := false);
    }

    method StartFlush()
      requires Valid() && writeBack && !flushActive && flat.owed == Nothing && !rspValid
      modifies this`wb, this`state, this`flushActive, this`flushIndex
      ensures Valid() && flushActive && flushIndex == 0
      ensures state == if old(state) != WritebackReq && old(state) != BypassReq && old(state) != BypassWait then Idle else old(state)
    {
      hide Coherent, Occupied, Filling, Bypassing;
      wb := wb.(resumeBypass := false, resumeFlush := false);
      flushActive, flushIndex := true, 0;
      if state != WritebackReq && state != BypassReq && state != BypassWait {
        state := Idle;
      }
    }

    lemma NothingDirty()
      requires Valid() && count == 0 && !DirtyLine()
      ensures bus.mem == flat.words
    {
      hide LinesAgree, MemoryAgrees, BufferOk;
      assert Pending() == [];
      CleanMeansFlat(g, writeBack, View(), bus.mem, flat.words);
    }

    method InvalidateAll()
      requires Valid() && !writeBack
      modifies valid, dirty
      ensures Valid()
      ensures forall i | 0 <= i < g.lines :: !valid[i]
    {
      hide LinesAgree, MemoryAgrees, BufferOk;
      ghost var v := View();
      for i := 0 to g.lines
        invariant forall j | 0 <= j < i :: !valid[j] && !dirty[j]
        invariant forall j | i <= j < g.lines :: valid[j] == old(valid[j]) && dirty[j] == old(dirty[j])
      {
        valid[i], dirty[i] := false, false;
      }
      DropKeeps(g, writeBack, v, Pending(), bus.mem, flat.words, View());
    }

    /** Edges still needed before the cache is idle and no flush is active, if memory serves each of them. */
    ghost function Work(): (n: nat)
      reads this
      requires Shape()
    {
      var flush := if flushActive then 6 * g.lines + 1 + count else 0;
      match state
      case Idle => flush
      case Response => 1 + flush
      case BypassWait => 2 + flush
      case BypassReq => 3 + flush
      case LoadFillReq => 2 * (4 - fill.count)
      case LoadFillWait => 2 * (4 - fill.count) - 1
      case WritebackReq =>
        if wb.resumeFlush then 6 * (g.lines - flushIndex) - 1 - wb.word
        else if wb.resumeBypass then 7 - wb.word + flush
        else 2 * (4 - fill.count) + 4 - wb.word
      case FlushScan => 6 * (g.lines - flushIndex)
    }

    /** The combinational wires of this cycle, and what they guarantee. */
    method Sense(in_: In) returns (w: Wires, req: Option<Access>)
      requires Valid()
      ensures w.issueValid ==> state == Idle && count != 0 && req == Some(StoreAccess(Pending()[0]))
      ensures Sensed(Snap(), in_.cpu, w.ready, w.issueValid, req)
      ensures in_.cpu.Some? && w.ready ==>
                && state == Idle && !flushActive && !rspValid && flat.owed == Nothing
                && Admissible(g, depth, writeBack, View(), in_.cpu.value, w,
                              if w.issueValid && in_.memReady then count - 1 else count, w.issueValid && in_.memReady)
      ensures w.issueValid && in_.cpu.Some? && w.ready ==> w.cacheable
      ensures Drives(state, fill, saved, wb, data[..], req)
      ensures state == Idle && !w.issueValid ==> req == if in_.cpu.Some? && w.ready && !w.cacheable then in_.cpu else None
    {
      hide Coherent, DirtyLine, RamIx, Occupied, Work, Overlaps, AccessByteMask, Filling, Bypassing, AwaitingBus,
        Swept;
      var overlap := false;
      if in_.cpu.Some? {
        overlap := StoreBufferOverlaps(in_.cpu.value.addr, AccessByteMask(in_.cpu.value.funct3, in_.cpu.value.addr % 8));
      }
      w := WiresOf(in_.cpu, in_.memReady, overlap);
      req := BusRequest(in_.cpu, w);
      if w.issueValid { PopHead(ring[..], head, count); }
    }

    /** The two states of a fill. */
    method FollowFill(in_: In, ghost unit: AtomicUnit)
      requires Valid() && !rspValid && (state == LoadFillReq || state == LoadFillWait) && BusOk(g, bus, in_)
      modifies this`state, this`bus, this`fill, this`rspValid, this`rspData, fillData, valid, dirty, tags, data
      ensures Valid() && !flushActive
      ensures bus == BusNext(g, old(bus), if old(state) == LoadFillReq then Some(FillAccess(old(fill))) else None, in_, unit)
      ensures (if old(state) == LoadFillReq then in_.memReady else in_.memRvalid) ==> Work() < old(Work())
      ensures state == LoadFillWait ==>
                if old(state) == LoadFillWait then !in_.memRvalid && bus == old(bus) else bus.flight != Quiet
      ensures old(state) == LoadFillWait && !in_.memRvalid ==> state == LoadFillWait
      ensures old(state) == LoadFillReq ==> state == if in_.memReady then LoadFillWait else LoadFillReq
      ensures old(state) == LoadFillWait && in_.memRvalid && 1 < old(Work()) ==> state == LoadFillReq
    {
      hide Coherent, LinesAgree, MemoryAgrees, BufferOk, Occupied, Filling, WritingBack, Bypassing, Swept, RamIx,
        LineNo, Hit;
      if state == LoadFillReq {
        FillRequest(in_, unit);
      } else {
        FillWait(in_, unit);
      }
    }

    /** The states that write back, sweep or bypass, and Response. */
    method FollowRest(in_: In, req: Option<Access>, ghost unit: AtomicUnit) returns (ghost h: Hidden)
      requires Valid() && !rspValid && Drives(state, fill, saved, wb, data[..], req) && BusOk(g, bus, in_)
      requires state != Idle && state != LoadFillReq && state != LoadFillWait
      modifies this`state, this`flat, this`bus, this`wb, this`rspValid, this`rspData, this`flushActive, this`flushIndex, valid, dirty
      ensures Valid() && h != EarlyStep && state != LoadFillWait
      ensures Atomically(h) ==> old(flat).owed.AtomicPending? && g.IsRam(old(flat).owed.req.addr)
      ensures h == DeviceStep ==> old(flat).owed == DevicePending && in_.memRvalid
      ensures flat == TakeHidden(g, old(flat), h, in_.memRdata, unit)
      ensures bus == BusNext(g, old(bus), req, in_, unit)
      ensures MemoryServes(old(state), in_, req) ==> Work() < old(Work())
      ensures old(flushActive) && !flushActive ==> FlushDone()
      ensures old(state) == BypassReq ==> (state == BypassReq <==> !in_.memReady)
    {
      hide Coherent, Control, LinesAgree, MemoryAgrees, BufferOk, Occupied, Bypassing, HitNow, Overlaps, RamIx;
      h := NoStep;
      match state {
        case WritebackReq => WritebackStep(in_, unit);
        case FlushScan => Scan(in_, unit);
        case BypassReq => h := IssueSaved(in_, unit);
        case BypassWait => h := BypassAnswer(in_, unit);
        case Response => Respond(in_, unit);
      }
    }

    /** Every state but Idle: follow the bus. */
    method Follow(in_: In, req: Option<Access>, ghost unit: AtomicUnit) returns (ghost h: Hidden)
      requires Valid() && !rspValid && state != Idle && Drives(state, fill, saved, wb, data[..], req) && BusOk(g, bus, in_)
      modifies this`state, this`flat, this`bus, this`fill, this`wb, this`rspValid, this`rspData, this`flushActive,
               this`flushIndex, fillData, valid, dirty, tags, data
      ensures Valid() && h != EarlyStep
      ensures Atomically(h) ==> old(flat).owed.AtomicPending? && g.IsRam(old(flat).owed.req.addr)
      ensures h == DeviceStep ==> old(flat).owed == DevicePending && in_.memRvalid
      ensures flat == TakeHidden(g, old(flat), h, in_.memRdata, unit)
      ensures bus == BusNext(g, old(bus), req, in_, unit)
      ensures MemoryServes(old(state), in_, req) ==> Work() < old(Work())
      ensures old(flushActive) && !flushActive ==> FlushDone()
      ensures old(state) == BypassReq ==> (state == BypassReq <==> !in_.memReady)
      ensures state == LoadFillWait ==>
                if old(state) == LoadFillWait then !in_.memRvalid && bus == old(bus) else bus.flight != Quiet
      ensures old(state) == LoadFillWait && !in_.memRvalid ==> state == LoadFillWait
      ensures old(state) == LoadFillReq ==> state == if in_.memReady then LoadFillWait else LoadFillReq
      ensures old(state) == LoadFillWait && in_.memRvalid && 1 < old(Work()) ==> state == LoadFillReq
    {
      hide Coherent, Control, LinesAgree, MemoryAgrees, BufferOk, Occupied, Bypassing, HitNow, Overlaps, RamIx,
        BusNext, BusOk, Work, FlushDone;
      h := NoStep;
      if state == LoadFillReq || state == LoadFillWait {
        FollowFill(in_, unit);
      } else {
        h := FollowRest(in_, req, unit);
      }
    }

    /** What the wires promise the state machine: the request driven, and that an admitted request can be taken. */
    ghost predicate Offered(in_: In, w: Wires, req: Option<Access>, drained: bool)
      reads this, valid, dirty, tags, data
      requires Shape()
    {
      && Drives(state, fill, saved, wb, data[..], req)
      && (in_.cpu.Some? && w.ready ==>
            state == Idle && !flushActive && Admissible(g, depth, writeBack, View(), in_.cpu.value, w, count, drained))
      && (state == Idle && !drained ==>
            if in_.cpu.Some? && w.ready && !w.cacheable then req == in_.cpu else !in_.memReady || req == None)
    }

    /** The state machine part of an edge. */
    method Advance(in_: In, w: Wires, req: Option<Access>, drained: bool, ghost unit: AtomicUnit) returns (ghost h: Hidden)
      requires Valid() && !rspValid && Offered(in_, w, req, drained)
      requires if drained then state == Idle else BusOk(g, bus, in_)
      requires in_.invalidate ==> flat.owed == Nothing && !TakesUnheard(g, in_)
      modifies this, valid, dirty, tags, data, ring, fillData
      ensures Valid()
      ensures
        var t := if Admits(in_, w.ready) then Accept(g, old(flat), in_.cpu.value) else old(flat);
        && (Atomically(h) ==> t.owed.AtomicPending? && g.IsRam(t.owed.req.addr))
        && (h == DeviceStep ==> t.owed == DevicePending && in_.memRvalid)
        && flat == TakeHidden(g, t, h, in_.memRdata, unit)
      ensures h == EarlyStep <==> Admits(in_, w.ready) && old(HitsDirty(in_.cpu.value)) && in_.memReady
      ensures Admits(in_, w.ready) && !(Cacheable(g, in_.cpu.value) && in_.cpu.value.wen) ==>
                state == old(NextOf(in_.cpu.value, in_.memReady)) && (state == BypassReq ==> saved == in_.cpu.value)
      ensures bus == if drained then old(bus) else BusNext(g, old(bus), req, in_, unit)
      ensures Advancing(writeBack, old(Snap()), Snap(), in_, w.ready, req)
    {
      hide Coherent, Control, Bypassing, HitNow, RamIx, Admissible, Advancing, Snap, HitsDirty, NextOf, BusNext,
        BusOk, View, Drives, Accept, Cacheable, Work, Pending;
      h := NoStep;
      if in_.invalidate {
        NotOnRam(in_, w, req, drained);
        Interrupted(in_, w, drained, req, unit);
      } else if state == Idle {
        h := Admit(in_, w, drained, req, unit);
      } else {
        h := Continue(in_, w, req, unit);
      }
    }

    /** What memory takes from an idle cache in an invalidate cycle, if not the oldest store, is for a device. */
    lemma NotOnRam(in_: In, w: Wires, req: Option<Access>, drained: bool)
      requires Valid() && Offered(in_, w, req, drained) && in_.invalidate && !TakesUnheard(g, in_)
      ensures state == Idle && !drained && in_.memReady && req.Some? ==> !g.IsRam(req.value.addr)
    {
      hide Coherent, Control;
    }

    /** An edge with an invalidate. */
    method Interrupted(in_: In, w: Wires, drained: bool, req: Option<Access>, ghost unit: AtomicUnit)
      requires Valid() && !rspValid && flat.owed == Nothing && Drives(state, fill, saved, wb, data[..], req)
      requires in_.invalidate && if drained then state == Idle else BusOk(g, bus, in_)
      requires state == Idle && !drained && in_.memReady && req.Some? ==> !g.IsRam(req.value.addr)
      modifies this`fill, this`wb, this`state, this`flushActive, this`flushIndex, this`bus, valid, dirty
      ensures Valid()
      ensures bus == if drained then old(bus) else BusNext(g, old(bus), req, in_, unit)
      ensures Advancing(writeBack, old(Snap()), Snap(), in_, w.ready, req)
    {
      hide Coherent, Control, LinesAgree, MemoryAgrees, BufferOk, Bypassing, HitNow, Overlaps, RamIx, Work, Occupied,
        DirtyLine, Drives, BusOk, BusTakes;
      Calm();
      var settled := drained;
      if state == Idle {
        if !drained { BusUnheard(in_, req, unit); }
        settled := true;
      } else {
        Driven(req);
      }
      Invalidate(in_, settled, req, unit);
      NoWork();
    }

    /** Memory may take a device request that the state machine does not hear of. */
    method BusUnheard(in_: In, req: Option<Access>, ghost unit: AtomicUnit)
      requires Valid() && BusOk(g, bus, in_) && state == Idle
      requires in_.memReady && req.Some? ==> !g.IsRam(req.value.addr)
      modifies this`bus
      ensures Valid()
      ensures bus == BusNext(g, old(bus), req, in_, unit)
    {
      hide LinesAgree, MemoryAgrees, BufferOk;
      bus := BusNext(g, bus, req, in_, unit);
    }

    /** An idle cache without a flush is the one with no work left. */
    lemma NoWork()
      requires Valid()
      ensures state == Idle && !flushActive <==> Work() == 0
    {
      hide Coherent;
    }

    /** With no processor request the bus carries what the state drives. */
    lemma Driven(req: Option<Access>)
      requires Valid() && state != Idle && Drives(state, fill, saved, wb, data[..], req)
      ensures req == BusRequest(None, Wires(false, false, false, false, false))
    {
      hide Coherent;
    }

    /** While a fill runs nothing is buffered and no flush is active. */
    lemma Calm()
      requires Valid()
      ensures state == LoadFillWait ==> count == 0 && !flushActive
    {
      hide Coherent;
    }

    /** An edge that finds the machine idle. */
    method Admit(in_: In, w: Wires, drained: bool, req: Option<Access>, ghost unit: AtomicUnit) returns (ghost h: Hidden)
      requires Valid() && !rspValid && state == Idle && !in_.invalidate
      requires !drained ==> BusOk(g, bus, in_)
      requires in_.cpu.Some? && w.ready ==>
                 !flushActive && Admissible(g, depth, writeBack, View(), in_.cpu.value, w, count, drained)
      requires !drained ==> if in_.cpu.Some? && w.ready && !w.cacheable then req == in_.cpu else !in_.memReady || req == None
      modifies this, valid, dirty, data, ring
      ensures Valid()
      ensures
        var t := if Admits(in_, w.ready) then Accept(g, old(flat), in_.cpu.value) else old(flat);
        && (Atomically(h) ==> t.owed.AtomicPending? && g.IsRam(t.owed.req.addr))
        && h != DeviceStep
        && flat == TakeHidden(g, t, h, in_.memRdata, unit)
      ensures h == EarlyStep <==> Admits(in_, w.ready) && old(HitsDirty(in_.cpu.value)) && in_.memReady
      ensures Admits(in_, w.ready) && !(Cacheable(g, in_.cpu.value) && in_.cpu.value.wen) ==>
                state == old(NextOf(in_.cpu.value, in_.memReady)) && (state == BypassReq ==> saved == in_.cpu.value)
      ensures bus == if drained then old(bus) else BusNext(g, old(bus), req, in_, unit)
      ensures Advancing(writeBack, old(Snap()), Snap(), in_, w.ready, req)
    {
      hide Coherent, Control, LinesAgree, MemoryAgrees, BufferOk, Occupied, Bypassing, HitNow, Overlaps, RamIx,
        HitsDirty, NextOf, Cacheable;
      h := IdleStep(in_, w, drained, unit);
    }

    /** An edge that finds it busy. */
    method Continue(in_: In, w: Wires, req: Option<Access>, ghost unit: AtomicUnit) returns (ghost h: Hidden)
      requires Valid() && !rspValid && state != Idle && Drives(state, fill, saved, wb, data[..], req) && BusOk(g, bus, in_)
      requires !in_.invalidate && !(in_.cpu.Some? && w.ready)
      modifies this`state, this`flat, this`bus, this`fill, this`wb, this`rspValid, this`rspData, this`flushActive,
               this`flushIndex, fillData, valid, dirty, tags, data
      ensures Valid() && h != EarlyStep
      ensures Atomically(h) ==> old(flat).owed.AtomicPending? && g.IsRam(old(flat).owed.req.addr)
      ensures h == DeviceStep ==> old(flat).owed == DevicePending && in_.memRvalid
      ensures flat == TakeHidden(g, old(flat), h, in_.memRdata, unit)
      ensures bus == BusNext(g, old(bus), req, in_, unit)
      ensures Advancing(writeBack, old(Snap()), Snap(), in_, w.ready, req)
    {
      hide Coherent, Control, LinesAgree, MemoryAgrees, BufferOk, Occupied, Bypassing, HitNow, Overlaps, RamIx,
        BusNext, Work, Drives;
      h := Follow(in_, req, unit);
      NoWork();
    }

    /** The part of an edge that is the same in every state: the wires are sampled, the registered
        response leaves, and the oldest store drains if memory takes it. */
    method Prepare(in_: In, ghost unit: AtomicUnit)
      returns (w: Wires, req: Option<Access>, rvalid: bool, rdata: Word, drained: bool)
      requires Valid()
      modifies this`rspValid, this`flat, this`head, this`count, this`bus
      ensures Valid() && !rspValid && Offered(in_, w, req, drained) && (in_.cpu.Some? && w.ready ==> flat.owed == Nothing)
      ensures rvalid == old(rspValid)
      ensures rvalid ==> old(flat).owed == Value(rdata)
      ensures flat == if rvalid then old(flat).(owed := Nothing) else old(flat)
      ensures drained ==> state == Idle && in_.memReady && req.Some?
      ensures bus == if drained then BusNext(g, old(bus), req, in_, unit) else old(bus)
      ensures Sampling(old(Snap()), Snap(), in_, w.ready, req, drained)
    {
      hide Coherent, Control, DirtyLine, LinesAgree, MemoryAgrees, BufferOk, Occupied, Admissible, Drives, HitNow,
        Overlaps, Bypassing, BusOk, BusNext, RamIx, Snap, Sampling, Sensed, Departed, Pending;
      ghost var before := Snap();
      w, req := Sense(in_);
      drained := w.issueValid && in_.memReady;
      rvalid, rdata := Depart(in_, req, drained, unit);
      SensedThenDeparted(before, Snap(), in_, w.ready, w.issueValid, req);
    }

    /** The registered response leaves, and the driven store too if memory takes it. */
    method Depart(in_: In, req: Option<Access>, drained: bool, ghost unit: AtomicUnit) returns (rvalid: bool, rdata: Word)
      requires Valid()
      requires drained ==> state == Idle && count != 0 && in_.memReady && req == Some(StoreAccess(Pending()[0]))
      modifies this`rspValid, this`flat, this`head, this`count, this`bus
      ensures Valid() && !rspValid
      ensures rvalid == old(rspValid)
      ensures rvalid ==> old(flat).owed == Value(rdata)
      ensures flat == if rvalid then old(flat).(owed := Nothing) else old(flat)
      ensures bus == if drained then BusNext(g, old(bus), req, in_, unit) else old(bus)
      ensures count == old(count) - (if drained then 1 else 0) && Departed(old(Snap()), Snap(), drained)
    {
      hide Coherent, Control, Occupied, DirtyLine;
      rvalid, rdata := Deliver();
      if drained {
        Drain();
      }
    }

    ghost function Snap(): Snapshot
      reads this, valid, dirty, tags, data, ring, fillData
      requires Shape()
    {
      Snapshot(state, flushActive, flushIndex, rspValid, Pending(), Work(), exists i | 0 <= i < g.lines :: valid[i],
               DirtyLine(), flat.words, bus.mem, bus.flight, if state == BypassReq then Some(saved) else None)
    }

    /** One clock edge. */
    method Clock(in_: In, ghost unit: AtomicUnit) returns (out: Out, ghost h: Hidden)
      requires Valid() && BusOk(g, bus, in_)
      requires in_.invalidate ==> (flat.owed == Nothing || rspValid) && !TakesUnheard(g, in_)
      modifies this, valid, dirty, tags, data, ring, fillData
      ensures Valid()
      // the cache is a flat memory on one side and a client of the bus protocol on the other
      ensures FlatStep(g, old(flat), flat, in_, out, h, unit)
      ensures bus == BusLapsed(BusNext(g, BusLapsed(old(bus), in_.lost), out.mem, in_, unit), in_.lost)
      // an atomic that finds its line dirty takes effect on the reservation ahead of its time
      ensures h == EarlyStep <==> Admits(in_, out.ready) && old(HitsDirty(in_.cpu.value)) && in_.memReady
      // where a request other than a cacheable store goes
      ensures Admits(in_, out.ready) && !(Cacheable(g, in_.cpu.value) && in_.cpu.value.wen) ==>
                state == old(NextOf(in_.cpu.value, in_.memReady)) && (state == BypassReq ==> saved == in_.cpu.value)
      ensures Edge(writeBack, old(Snap()), Snap(), in_, out.ready, out.mem)
      // a registered response always goes out, and a fast load is answered whenever it can be
      ensures out.rvalid == old(rspValid) && out.flushBusy == (writeBack && old(flushActive))
      ensures out.fastValid == old(FastHits(in_))
    {
      hide Coherent, Control, HitsDirty, NextOf, HitNow, BusLapsed, FastHits, Snap, View, Pending, BusOk, Serves,
        Edge, Work, RamIx, Cacheable, BusNext, Occupied;
      var fastHit, fastData := FastLoadHit(in_);
      var low := count != 0 && !(count >= depth - 1 || (in_.cpu.Some? && !(Cacheable(g, in_.cpu.value) && in_.cpu.value.wen)));
      var busy := writeBack && flushActive;
      var w, req, rvalid, rdata;
      w, req, rvalid, rdata, h := Cycle(in_, unit);
      out := Out(w.ready, rvalid, rdata, fastHit, fastData, req, low && w.issueValid, busy);
    }

    /** The memory side has lost its reservation. */
    ghost method Lapse(in_: In)
      requires Valid()
      modifies this`flat, this`bus
      ensures Valid() && (BusOk(g, old(bus), in_) ==> BusOk(g, bus, in_))
      ensures flat == Lapsed(old(flat), in_.lost) && bus == BusLapsed(old(bus), in_.lost)
      ensures Snap() == old(Snap())
    {
      hide Coherent, Bypassing, Swept, Occupied, FillRegs, FillWords, WrittenBack;
      flat, bus := Lapsed(flat, in_.lost), BusLapsed(bus, in_.lost);
    }

    /** Both phases of an edge. */
    method Cycle(in_: In, ghost unit: AtomicUnit)
      returns (w: Wires, req: Option<Access>, rvalid: bool, rdata: Word, ghost h: Hidden)
      requires Valid() && BusOk(g, bus, in_)
      requires in_.invalidate ==> (flat.owed == Nothing || rspValid) && !TakesUnheard(g, in_)
      modifies this, valid, dirty, tags, data, ring, fillData
      ensures Valid()
      ensures rvalid == old(rspValid)
      ensures Serves(g, old(flat), flat, in_, w.ready, rvalid, rdata, h, unit)
      ensures h == EarlyStep <==> Admits(in_, w.ready) && old(HitsDirty(in_.cpu.value)) && in_.memReady
      ensures Admits(in_, w.ready) && !(Cacheable(g, in_.cpu.value) && in_.cpu.value.wen) ==>
                state == old(NextOf(in_.cpu.value, in_.memReady)) && (state == BypassReq ==> saved == in_.cpu.value)
      ensures bus == BusLapsed(BusNext(g, BusLapsed(old(bus), in_.lost), req, in_, unit), in_.lost)
      ensures Edge(writeBack, old(Snap()), Snap(), in_, w.ready, req)
    {
      hide Coherent, Control, HitsDirty, NextOf, BusLapsed, BusOk, Snap, View, Pending, FlushDone, Accept, TakeHidden,
        Edge, Sampling, Advancing, Work, RamIx, Cacheable, BusNext, Offered, WiresOf, BusRequest, Occupied, HitNow,
        Overlaps, AccessByteMask;
      ghost var before := Snap();
      Lapse(in_);
      var drained;
      w, req, rvalid, rdata, drained := Prepare(in_, unit);
      ghost var sampled := Snap();
      h := Advance(in_, w, req, drained, unit);
      Lapse(in_);
      PhasesMakeEdge(writeBack, before, sampled, Snap(), in_, w.ready, req, drained);
    }

    /** What one invalidate leaves behind. */
    ghost predicate InvalidateEffect()
      reads this, valid
      requires valid.Length == g.lines
    {
      if !writeBack then forall i | 0 <= i < g.lines :: !valid[i]
      else (flushActive && flushIndex == 0) || bus.mem == flat.words
    }

    /** The fast load finds its line, the cache is idle, and no pending store touches its bytes. */
    ghost predicate FastHits(in_: In)
      reads this, valid, tags, ring
      requires Shape()
    {
      in_.fast.Some? && state == Idle && !flushActive && !in_.invalidate && !rspValid
      && g.IsRam(in_.fast.value.addr) && HitNow(in_.fast.value.addr)
      && !Overlaps(Pending(), in_.fast.value.addr, AccessByteMask(in_.fast.value.funct3, in_.fast.value.addr % 8))
    }

    /** A cache with no work left and no response under way owes nothing. */
    lemma AllAnswered()
      requires Valid() && Work() == 0 && !rspValid
      ensures flat.owed == Nothing && state == Idle && !flushActive
    {
      hide Coherent, Occupied;
    }

    method FastLoadHit(in_: In) returns (hit: bool, w: Word)
      requires Valid()
      ensures hit ==> in_.fast.Some? && g.IsRam(in_.fast.value.addr)
                      && w == flat.words[RamIx(g, in_.fast.value.addr)]
      ensures hit == FastHits(in_)
    {
      hide LinesAgree, MemoryAgrees, BufferOk, Control, Occupied, Overlaps;
      hit, w := false, ZERO_WORD;
      if in_.fast.Some? && state == Idle && !flushActive && !in_.invalidate && !rspValid {
        var f := in_.fast.value;
        if g.IsRam(f.addr) && HitNow(f.addr) {
          var overlap := StoreBufferOverlaps(f.addr, AccessByteMask(f.funct3, f.addr % 8));
          HitReadsFlat(g, writeBack, View(), Pending(), bus.mem, flat.words, f.addr);
          hit, w := !overlap, data[g.Index(LineNo(f.addr))][Lane(f.addr)];
        }
      }
    }

    method Respond(in_: In, ghost unit: AtomicUnit)
      requires Valid() && state == Response && BusOk(g, bus, in_)
      modifies this`state, this`bus
      ensures Valid() && state == Idle
      ensures bus == BusNext(g, old(bus), None, in_, unit)
    {
      hide LinesAgree, MemoryAgrees, BufferOk;
      BusIdle(in_, unit);
      state := Idle;
    }
  }
}
