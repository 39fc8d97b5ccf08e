/** The copy engine: one word read, one word written, until nothing remains. */
module DmaEngine {
  import opened Bytes
  import opened Eei

  // ---- what a transfer means ----

  /** Memory after the first k words of a forward copy. */
  function Copied(m: seq<Word>, s: nat, d: nat, k: nat): (m': seq<Word>)
    requires s + k <= |m| && d + k <= |m|
    ensures |m'| == |m|
  {
    if k == 0 then m
    else
      var p := Copied(m, s, d, k - 1);
      p[d + k - 1 := p[s + k - 1]]
  }

  lemma {:induction false} CopyUntouched(m: seq<Word>, s: nat, d: nat, k: nat, x: nat)
    requires s + k <= |m| && d + k <= |m| && x < |m| && !(d <= x < d + k)
    ensures Copied(m, s, d, k)[x] == m[x]
  {
    if k != 0 { CopyUntouched(m, s, d, k - 1, x); }
  }

  /** The destination gets the old source words, unless the destination starts inside the source. */
  lemma {:induction false} CopyMovesSource(m: seq<Word>, s: nat, d: nat, k: nat, i: nat)
    requires s + k <= |m| && d + k <= |m| && i < k && (d <= s || s + k <= d)
    ensures Copied(m, s, d, k)[d + i] == m[s + i]
  {
    if i == k - 1 {
      CopyUntouched(m, s, d, k - 1, s + i);
    } else {
      CopyMovesSource(m, s, d, k - 1, i);
    }
  }

  /** The remainder of i by p. */
  function Cyclic(i: nat, p: nat): (r: nat)
    requires 0 < p
    ensures r <= i && r < p
  {
    if i < p then i else Cyclic(i - p, p)
  }

  /** A destination inside the source repeats the words between the two starts, over and over. */
  lemma {:induction false} OverlapRepeats(m: seq<Word>, s: nat, d: nat, k: nat, i: nat)
    requires s < d && d + k <= |m| && i < k
    ensures Copied(m, s, d, k)[d + i] == m[s + Cyclic(i, d - s)]
  {
    if i < k - 1 {
      OverlapRepeats(m, s, d, k - 1, i);
    } else if i < d - s {
      CopyUntouched(m, s, d, i, s + i);
    } else {
      OverlapRepeats(m, s, d, i, i - (d - s));
    }
  }

  // ---- the engine ----

  datatype State = IDLE | READ_REQ | READ_WAIT | WRITE_REQ | DONE | ERR

  /** A register access by the processor. */
  datatype Mmio = Mmio(addr: nat, wen: bool, wdata: nat)

  /** Registers the processor sees. */
  datatype Control = Control(src: nat, dst: nat, len: nat, busy: bool, done: bool, err: bool, irqEn: bool, startPulse: bool,
                             rvalid: bool, rdata: nat)

  datatype Regs = Regs(state: State, curSrc: nat, curDst: nat, rem: nat, rdBuf: Word)

  datatype Req = Req(addr: nat, wen: bool, wdata: Word)

  datatype Flight = Quiet | Reading(w: Word) | Writing

  /** A transfer of n words inside RAM, and memory as it was when it started. */
  datatype Job = NoJob | Job(m0: seq<Word>, s: nat, d: nat, n: nat, k: nat) {
    predicate Fits(words: nat) { Job? && |m0| == words && s + n <= words && d + n <= words && k <= n }

    predicate InRegion(x: nat) { Job? && (s <= x < s + n || d <= x < d + n) }
  }

  predicate Active(s: State) { s == READ_REQ || s == READ_WAIT || s == WRITE_REQ }

  predicate BadAlign(a: nat) { a % 8 != 0 }

  /** The transfer's words are those of a copy that is k words far. */
  ghost predicate Agrees(j: Job, ram: seq<Word>)
    requires j.Fits(|ram|)
  {
    forall x: nat :: x < |ram| && j.InRegion(x) ==> ram[x] == Copied(j.m0, j.s, j.d, j.k)[x]
  }

  ghost predicate EngineOk(r: Regs, j: Job, ram: seq<Word>, f: Flight) {
    && (r.state == READ_WAIT ==> f.Reading?)
    && (r.state == WRITE_REQ ==> f == Quiet)
    && (Active(r.state) ==> r.rem % 8 == 0 && 0 < r.rem)
    && (j.Job? && (Active(r.state) || r.state == DONE) ==>
          j.Fits(|ram|) && Agrees(j, ram)
          && (r.state == DONE ==> j.k == j.n)
          && (r.state != DONE ==> j.k < j.n && r.curSrc == 8 * (j.s + j.k) && r.curDst == 8 * (j.d + j.k) && r.rem == 8 * (j.n - j.k))
          && (r.state == READ_WAIT ==> f.w == ram[j.s + j.k])
          && (r.state == WRITE_REQ ==> r.rdBuf == ram[j.s + j.k]))
  }

  /** Bus transfers still to come, counted on edges on which the bus does its part. */
  function Work(r: Regs): nat {
    var n := 3 * (r.rem / 8);
    match r.state case READ_REQ => n + 3 case READ_WAIT => n + 2 case WRITE_REQ => n + 1 case _ => 0
  }

  /** Other traffic leaves the words of the transfer alone. */
  ghost predicate Elsewhere(j: Job, ram: seq<Word>, ram1: seq<Word>) {
    |ram1| == |ram| && forall x: nat :: x < |ram| && j.InRegion(x) ==> ram1[x] == ram[x]
  }

  lemma ElsewhereAgrees(j: Job, ram: seq<Word>, ram1: seq<Word>)
    requires j.Fits(|ram|) && Agrees(j, ram) && Elsewhere(j, ram, ram1)
    ensures Agrees(j, ram1)
  {
    hide Copied;
  }

  /** Writing the word just read takes the copy one word further. */
  lemma WriteAdvances(j: Job, ram: seq<Word>)
    requires j.Fits(|ram|) && Agrees(j, ram) && j.k < j.n
    ensures Agrees(j.(k := j.k + 1), ram[j.d + j.k := ram[j.s + j.k]])
  {
    var p := Copied(j.m0, j.s, j.d, j.k);
    assert Copied(j.m0, j.s, j.d, j.k + 1) == p[j.d + j.k := p[j.s + j.k]];
    assert ram[j.s + j.k] == p[j.s + j.k];
  }

  predicate Mapped(a: nat) { a == 0x00 || a == 0x08 || a == 0x10 || a == 0x18 || a == 0x20 }

  predicate Reads(q: Option<Mmio>, a: nat) { q.Some? && !q.value.wen && q.value.addr == a }

  predicate Writes(q: Option<Mmio>, a: nat) { q.Some? && q.value.wen && q.value.addr == a }

  /** A register write takes effect only while no transfer runs. */
  predicate Sets(q: Option<Mmio>, a: nat, s: State) { Writes(q, a) && s == IDLE }

  class Dma {
    const begin: nat
    var c: Control
    var r: Regs
    ghost var job: Job
    ghost var ram: seq<Word>
    ghost var flight: Flight

    ghost predicate Valid()
      reads this
    {
      EngineOk(r, job, ram, flight) && (Active(r.state) ==> c.busy)
    }

    constructor (begin: nat, ghost ram: seq<Word>)
      ensures Valid() && r.state == IDLE && this.ram == ram && this.begin == begin
    {
      this.begin, this.ram := begin, ram;
      c := Control(0, 0, 0, false, false, false, false, false, false, 0);
      r := Regs(IDLE, 0, 0, 0, ZERO_WORD);
      job, flight := NoJob, Quiet;
    }

    function Drives(): Option<Req>
      reads this
    {
      DrivesOf(r)
    }

    /** The transfer a start would begin, if it lies in RAM. */
    ghost function Wanted(old_: Control, ram1: seq<Word>): Job
    {
      if begin <= old_.src < P64 && begin <= old_.dst < P64
         && old_.src - begin + old_.len <= 8 * |ram1| && old_.dst - begin + old_.len <= 8 * |ram1| then
        Job(ram1, (old_.src - begin) / 8, (old_.dst - begin) / 8, old_.len / 8, 0)
      else NoJob
    }

    /** The processor's registers over an edge. Addresses and length do not change under a running transfer. */
    method Access(q: Option<Mmio>)
      modifies `c
      ensures c.src == if Sets(q, 0x10, r.state) then q.value.wdata else old(c.src)
      ensures c.dst == if Sets(q, 0x18, r.state) then q.value.wdata else old(c.dst)
      ensures c.len == if Sets(q, 0x20, r.state) then q.value.wdata else old(c.len)
      ensures c.rvalid == q.Some? && c.irqEn == if Writes(q, 0) then q.value.wdata / 4 % 2 == 1 else old(c.irqEn)
      ensures q.Some? && q.value.wen ==> c.rdata == 0
      // a read shows what the last write to the register left, and nothing elsewhere
      ensures Reads(q, 0) ==> c.rdata == if c.irqEn then 4 else 0
      ensures Reads(q, 0x08) ==> c.rdata == (if c.err then 4 else 0) + (if c.done then 2 else 0) + (if c.busy then 1 else 0)
      ensures (Reads(q, 0x10) ==> c.rdata == c.src) && (Reads(q, 0x18) ==> c.rdata == c.dst) && (Reads(q, 0x20) ==> c.rdata == c.len)
      ensures q.Some? && !q.value.wen && !Mapped(q.value.addr) ==> c.rdata == 0
      ensures Writes(q, 0) && q.value.wdata / 2 % 2 == 1 ==> !c.done && !c.err
      ensures !(Writes(q, 0) && q.value.wdata / 2 % 2 == 1) ==> c.done == old(c.done) && c.err == old(c.err)
      ensures c.busy == old(c.busy) && (c.done ==> old(c.done)) && (c.err ==> old(c.err))
      ensures c.startPulse == (Sets(q, 0, r.state) && q.value.wdata % 2 == 1)
    {
      c := c.(rvalid := false, startPulse := false);
      if q.Some? {
        if q.value.wen { Write(q.value); } else { Read(q.value.addr); }
      }
    }

    method Read(a: nat)
      modifies `c
      ensures c == old(c).(rvalid := true, rdata := c.rdata)
      ensures c.rdata == (if a == 0x00 then if c.irqEn then 4 else 0
                          else if a == 0x08 then (if c.err then 4 else 0) + (if c.done then 2 else 0) + (if c.busy then 1 else 0)
                          else if a == 0x10 then c.src else if a == 0x18 then c.dst else if a == 0x20 then c.len else 0)
    {
      var data := match a
        case 0x00 => if c.irqEn then 4 else 0
        case 0x08 => (if c.err then 4 else 0) + (if c.done then 2 else 0) + (if c.busy then 1 else 0)
        case 0x10 => c.src
        case 0x18 => c.dst
        case 0x20 => c.len
        case _ => 0;
      c := c.(rvalid := true, rdata := data);
    }

    /** The start pulse is up for one cycle; addresses and length do not change under a running transfer. */
    method Write(q: Mmio)
      requires q.wen && !c.startPulse
      modifies `c
      ensures c.rvalid && c.rdata == 0 && c.busy == old(c.busy)
      ensures c.src == if Sets(Some(q), 0x10, r.state) then q.wdata else old(c.src)
      ensures c.dst == if Sets(Some(q), 0x18, r.state) then q.wdata else old(c.dst)
      ensures c.len == if Sets(Some(q), 0x20, r.state) then q.wdata else old(c.len)
      ensures c.irqEn == if q.addr == 0 then q.wdata / 4 % 2 == 1 else old(c.irqEn)
      ensures c.startPulse == (Sets(Some(q), 0, r.state) && q.wdata % 2 == 1)
      ensures if q.addr == 0 && q.wdata / 2 % 2 == 1 then !c.done && !c.err else c.done == old(c.done) && c.err == old(c.err)
    {
      var active := r.state != IDLE;
      c := c.(rvalid := true, rdata := 0);
      match q.addr
      case 0x00 =>
        if q.wdata / 2 % 2 == 1 { c := c.(done := false, err := false); }
        c := c.(irqEn := q.wdata / 4 % 2 == 1, startPulse := q.wdata % 2 == 1 && !active);
      case 0x10 => if !active { c := c.(src := q.wdata); }
      case 0x18 => if !active { c := c.(dst := q.wdata); }
      case 0x20 => if !active { c := c.(len := q.wdata); }
      case _ =>
    }

    /** A start pulse in IDLE: refuse, finish at once, or begin. */
    method Start(old_: Control, ghost ram1: seq<Word>)
      requires r.state == IDLE && begin % 8 == 0 && begin < P64
      modifies `r, `c, `job
      ensures r.state == if BadAlign(old_.src) || BadAlign(old_.dst) || BadAlign(old_.len) then ERR
                         else if old_.len == 0 then DONE else READ_REQ
      ensures r.state == READ_REQ ==> c.busy && job == Wanted(old_, ram1)
      ensures EngineOk(r, job, ram1, Quiet) && c.done == (r.state == DONE) && c.err == (r.state == ERR)
      ensures c.src == old(c.src) && c.dst == old(c.dst) && c.len == old(c.len) && c.startPulse == old(c.startPulse)
      ensures c.rvalid == old(c.rvalid) && c.rdata == old(c.rdata) && c.irqEn == old(c.irqEn)
    {
      c := c.(done := false, err := false);
      if BadAlign(old_.src) || BadAlign(old_.dst) || BadAlign(old_.len) {
        c, r := c.(err := true), r.(state := ERR);
      } else if old_.len == 0 {
        c, r, job := c.(done := true), r.(state := DONE), NoJob;
      } else {
        c := c.(busy := true);
        r := r.(state := READ_REQ, curSrc := (old_.src + P64 - begin) % P64, curDst := (old_.dst + P64 - begin) % P64,
                rem := old_.len);
        job := Wanted(old_, ram1);
        if job.Job? { Offset(old_.src, begin); Offset(old_.dst, begin); }
      }
    }

    /** A running transfer over one edge: ask for a word, take it, or write it and go on to the next. */
    method Transfer(ready: bool, rvalid: bool, rdata: Word, ghost ram1: seq<Word>)
      requires EngineOk(r, job, ram1, flight) && Active(r.state) && 0 < 8 * |ram1| <= P64
      requires (ready ==> flight == Quiet) && (rvalid && flight.Reading? ==> rdata == flight.w)
      modifies `r, `job
      ensures EngineOk(r, job, RamNext(old(Drives()), ready, ram1), FlightNext(old(Drives()), ready, rvalid, flight, ram1))
      ensures Active(r.state) || r.state == DONE
      ensures if old(job).NoJob? then job == NoJob else job.Job? && job == old(job).(k := job.k)
      ensures (if old(r.state) == READ_WAIT then rvalid else ready) ==> Work(r) < old(Work(r))
    {
      hide EngineOk, RamNext, FlightNext;
      EdgeFacts(r, job, ram1, flight, ready, rvalid, rdata);
      match r.state {
        case READ_REQ =>
          if ready { r := r.(state := READ_WAIT); }
        case READ_WAIT =>
          if rvalid { r := r.(rdBuf := rdata, state := WRITE_REQ); }
        case WRITE_REQ =>
          if ready {
            if job.Job? { job := job.(k := job.k + 1); }
            r := r.(curSrc := (r.curSrc + 8) % P64, curDst := (r.curDst + 8) % P64, rem := r.rem - 8,
                    state := if r.rem == 8 then DONE else READ_REQ);
          }
      }
    }

    /** The machine over one edge, on the registers the processor had set before it. */
    method Machine(old_: Control, ready: bool, rvalid: bool, rdata: Word, ghost ram1: seq<Word>)
      requires EngineOk(r, job, ram1, flight) && (Active(r.state) ==> c.busy) && begin % 8 == 0 && begin < P64 && 0 < 8 * |ram1| <= P64
      requires (ready ==> flight == Quiet) && (rvalid && flight.Reading? ==> rdata == flight.w)
      modifies `r, `c, `job
      ensures EngineOk(r, job, RamNext(old(Drives()), ready, ram1), FlightNext(old(Drives()), ready, rvalid, flight, ram1))
      ensures Active(r.state) ==> c.busy
      ensures old(r.state) == IDLE ==>
        r.state == if !old_.startPulse then IDLE
                   else if BadAlign(old_.src) || BadAlign(old_.dst) || BadAlign(old_.len) then ERR
                   else if old_.len == 0 then DONE else READ_REQ
      ensures old(r.state) == IDLE && r.state == READ_REQ ==> job == Wanted(old_, ram1)
      ensures c.src == old(c.src) && c.dst == old(c.dst) && c.len == old(c.len) && c.startPulse == old(c.startPulse)
      ensures c.rvalid == old(c.rvalid) && c.rdata == old(c.rdata) && c.irqEn == old(c.irqEn)
      ensures Active(old(r.state)) ==>
        (Active(r.state) || r.state == DONE) && c.done == old(c.done) && (old(job).NoJob? ==> job == NoJob)
      ensures Active(old(r.state)) && old(job).Job? ==> job.Job? && job == old(job).(k := job.k)
      ensures c.done && !old(c.done) ==> old(r.state) == DONE || (old(r.state) == IDLE && old_.len == 0)
      ensures c.err && !old(c.err) ==> old(r.state) == IDLE && r.state == ERR
      ensures old(r.state) == DONE ==> c.done && r.state == IDLE
      ensures Active(old(r.state)) && (if old(r.state) == READ_WAIT then rvalid else ready) ==> Work(r) < old(Work(r))
    {
      hide EngineOk, Wanted, RamNext, FlightNext, Work, BadAlign;
      ghost var was := r;
      match r.state {
        case IDLE =>
          c := c.(busy := false);
          if old_.startPulse { Start(old_, ram1); }
          RestFacts(was, r, job, ram1, flight, ready, rvalid);
        case READ_REQ | READ_WAIT | WRITE_REQ =>
          Transfer(ready, rvalid, rdata, ram1);
        case DONE =>
          c, r := c.(busy := false, done := true), r.(state := IDLE);
          RestFacts(was, r, job, ram1, flight, ready, rvalid);
        case ERR =>
          c, r := c.(busy := false), r.(state := IDLE);
          RestFacts(was, r, job, ram1, flight, ready, rvalid);
      }
    }

    /** One clock edge. Other traffic may change any word outside the transfer. When the engine reports DONE, every
        word of the transfer is as a forward copy leaves it, and the engine has written nothing else. */
    method Clock(q: Option<Mmio>, ready: bool, rvalid: bool, rdata: Word, ghost ram1: seq<Word>)
      requires Valid() && begin % 8 == 0 && begin < P64 && 0 < 8 * |ram| <= P64
      requires (ready ==> flight == Quiet) && (rvalid ==> flight != Quiet) && (rvalid && flight.Reading? ==> rdata == flight.w)
      requires |ram1| == |ram| && (Active(r.state) || r.state == DONE ==> Elsewhere(job, ram, ram1))
      modifies this
      ensures Valid()
      ensures ram == RamNext(old(Drives()), ready, ram1) && flight == FlightNext(old(Drives()), ready, rvalid, old(flight), ram1)
      // A start begins the transfer the registers describe, is refused for bad alignment, or is done at once.
      ensures old(r.state) == IDLE ==>
        r.state == if !old(c.startPulse) then IDLE
                   else if BadAlign(old(c.src)) || BadAlign(old(c.dst)) || BadAlign(old(c.len)) then ERR
                   else if old(c.len) == 0 then DONE else READ_REQ
      ensures old(r.state) == IDLE && r.state == READ_REQ ==> job == Wanted(old(c), ram1)
      ensures c.src == if Sets(q, 0x10, old(r.state)) then q.value.wdata else old(c.src)
      ensures c.dst == if Sets(q, 0x18, old(r.state)) then q.value.wdata else old(c.dst)
      ensures c.len == if Sets(q, 0x20, old(r.state)) then q.value.wdata else old(c.len)
      ensures c.irqEn == if Writes(q, 0) then q.value.wdata / 4 % 2 == 1 else old(c.irqEn)
      ensures c.startPulse == (Sets(q, 0, old(r.state)) && q.value.wdata % 2 == 1)
      ensures Active(old(r.state)) ==> Active(r.state) || r.state == DONE
      ensures Active(old(r.state)) && old(job).Job? ==> job.Job? && job == old(job).(k := job.k)
      ensures r.state == DONE && job.Job? && Active(old(r.state)) ==>
        forall x: nat :: x < |ram| && job.InRegion(x) ==> job.Fits(|ram|) && ram[x] == Copied(job.m0, job.s, job.d, job.n)[x]
      // The done bit comes up only after a finished copy, or for an empty one.
      ensures c.done && !old(c.done) ==> old(r.state) == DONE || (old(r.state) == IDLE && old(c.len) == 0)
      ensures old(r.state) == DONE ==> c.done && r.state == IDLE
      ensures c.err && !old(c.err) ==> old(r.state) == IDLE && r.state == ERR
      // Every register access is answered in the next cycle: a read shows the register, and nothing elsewhere.
      ensures c.rvalid == q.Some?
      ensures Reads(q, 0) ==> c.rdata == if old(c.irqEn) then 4 else 0
      ensures Reads(q, 0x08) ==>
        c.rdata == (if old(c.err) then 4 else 0) + (if old(c.done) then 2 else 0) + (if old(c.busy) then 1 else 0)
      ensures Reads(q, 0x10) ==> c.rdata == old(c.src)
      ensures Reads(q, 0x18) ==> c.rdata == old(c.dst)
      ensures Reads(q, 0x20) ==> c.rdata == old(c.len)
      ensures q.Some? && (q.value.wen || !Mapped(q.value.addr)) ==> c.rdata == 0
      ensures Active(old(r.state)) && (if old(r.state) == READ_WAIT then rvalid else ready) ==> Work(r) < old(Work(r))
    {
      hide EngineOk, RamNext, FlightNext, Wanted, Work, Elsewhere, Copied;
      var old_ := c;
      ghost var d := Drives();
      ElsewhereKeeps(r, job, ram, flight, ram1);
      Access(q);
      Machine(old_, ready, rvalid, rdata, ram1);
      ram, flight := RamNext(d, ready, ram1), FlightNext(d, ready, rvalid, flight, ram1);
      FinishedCopy(r, job, ram, flight);
    }
  }

  /** A word of RAM by byte offset; offsets wrap at the size of the memory. */
  function Ix(a: nat, words: nat): (x: nat)
    requires 0 < words
    ensures x < words
  {
    a / 8 % words
  }

  ghost function RamNext(d: Option<Req>, ready: bool, ram1: seq<Word>): (m: seq<Word>)
    requires 0 < |ram1|
    ensures |m| == |ram1|
  {
    if d.Some? && d.value.wen && ready then ram1[Ix(d.value.addr, |ram1|) := d.value.wdata] else ram1
  }

  ghost function FlightNext(d: Option<Req>, ready: bool, rvalid: bool, f: Flight, ram1: seq<Word>): Flight
    requires 0 < |ram1|
  {
    if d.Some? && ready then if d.value.wen then Writing else Reading(ram1[Ix(d.value.addr, |ram1|)])
    else if rvalid then Quiet
    else f
  }

  lemma ElsewhereKeeps(r: Regs, j: Job, ram: seq<Word>, f: Flight, ram1: seq<Word>)
    requires EngineOk(r, j, ram, f) && |ram1| == |ram| && (Active(r.state) || r.state == DONE ==> Elsewhere(j, ram, ram1))
    ensures EngineOk(r, j, ram1, f)
  {
    hide Agrees;
    if j.Job? && (Active(r.state) || r.state == DONE) { ElsewhereAgrees(j, ram, ram1); }
  }

  lemma FinishedCopy(r: Regs, j: Job, ram: seq<Word>, f: Flight)
    requires EngineOk(r, j, ram, f)
    ensures r.state == DONE && j.Job? ==>
      forall x: nat :: x < |ram| && j.InRegion(x) ==> j.Fits(|ram|) && ram[x] == Copied(j.m0, j.s, j.d, j.n)[x]
  {
    hide Copied;
  }

  /** In a transfer the offsets name the words meant. */
  lemma InRam(a: nat, x: nat, words: nat)
    requires a == 8 * x && x < words && 8 * words <= P64
    ensures Ix(a, words) == x
    ensures x + 1 < words ==> (a + 8) % P64 == 8 * (x + 1)
  {
    assert 8 * x / 8 == x;
    Small(x, words);
    if x + 1 < words { Small(8 * (x + 1), P64); }
  }

  lemma Small(x: nat, m: nat)
    requires x < m
    ensures x % m == x
  {
  }

  /** An engine at rest drives nothing, so whatever it begins or reports is true of memory as it is. */
  lemma RestFacts(r: Regs, r': Regs, j': Job, ram: seq<Word>, f: Flight, ready: bool, rvalid: bool)
    requires r.state in {IDLE, DONE, ERR} && 0 < |ram|
    requires r'.state == IDLE || (EngineOk(r', j', ram, Quiet) && r'.state in {ERR, DONE, READ_REQ})
    ensures EngineOk(r', j', RamNext(DrivesOf(r), ready, ram), FlightNext(DrivesOf(r), ready, rvalid, f, ram))
  {
  }

  /** What every kind of edge keeps. */
  lemma EdgeFacts(r: Regs, j: Job, ram: seq<Word>, f: Flight, ready: bool, rvalid: bool, rdata: Word)
    requires EngineOk(r, j, ram, f) && 0 < 8 * |ram| <= P64
    requires (ready ==> f == Quiet) && (rvalid && f.Reading? ==> rdata == f.w)
    ensures Active(r.state) ==> r.rem % 8 == 0 && 8 <= r.rem
    ensures r.state != READ_WAIT && r.state != WRITE_REQ ==>
      EngineOk(r, j, RamNext(DrivesOf(r), false, ram), FlightNext(DrivesOf(r), false, rvalid, f, ram))
    ensures r.state == READ_REQ && ready ==>
      EngineOk(r.(state := READ_WAIT), j, RamNext(DrivesOf(r), ready, ram), FlightNext(DrivesOf(r), ready, rvalid, f, ram))
    ensures r.state == READ_WAIT ==>
      EngineOk(if rvalid then r.(rdBuf := rdata, state := WRITE_REQ) else r, j, RamNext(DrivesOf(r), ready, ram),
               FlightNext(DrivesOf(r), ready, rvalid, f, ram))
    ensures r.state == WRITE_REQ && !ready ==>
      EngineOk(r, j, RamNext(DrivesOf(r), ready, ram), FlightNext(DrivesOf(r), ready, rvalid, f, ram))
    ensures r.state == WRITE_REQ && ready ==>
      EngineOk(r.(curSrc := (r.curSrc + 8) % P64, curDst := (r.curDst + 8) % P64, rem := r.rem - 8,
                  state := if r.rem == 8 then DONE else READ_REQ),
               if j.Job? then j.(k := j.k + 1) else j,
               RamNext(DrivesOf(r), ready, ram), FlightNext(DrivesOf(r), ready, rvalid, f, ram))
  {
    hide Agrees, Ix;
    if j.Job? && Active(r.state) {
      InRam(r.curSrc, j.s + j.k, |ram|);
      InRam(r.curDst, j.d + j.k, |ram|);
      if r.state == WRITE_REQ { WriteAdvances(j, ram); }
    }
  }

  function DrivesOf(r: Regs): Option<Req> {
    if r.state == READ_REQ then Some(Req(r.curSrc, false, ZERO_WORD))
    else if r.state == WRITE_REQ then Some(Req(r.curDst, true, r.rdBuf))
    else None
  }

  lemma Offset(a: nat, begin: nat)
    requires begin <= a < P64 && begin % 8 == 0
    ensures (a + P64 - begin) % P64 == a - begin
    ensures a % 8 == 0 ==> 8 * ((a - begin) / 8) == a - begin
  {
  }
}
