/** The instruction cache: direct-mapped, demanded word first, hits on a line still filling, cancel and invalidate. */
module ICacheUnit {
  import opened Bytes
  import opened Eei
  import opened DCacheCoherence
  import opened ICacheLines

  class ICache {
    const g: Geometry
    const cacheable: nat -> bool
    const valid: array<bool>
    const tags: array<nat>
    const data: array<Line>
    var r: Regs
    /** Memory, the request accepted and neither answered nor dropped, and the read memory still owes. */
    ghost var m: Mem
    ghost var want: Option<nat>
    ghost var flight: Flight

    ghost function View(): Lines
      reads valid, tags, data
    {
      Lines(valid[..], tags[..], data[..])
    }

    ghost predicate Valid()
      reads this, valid, tags, data
    {
      && g.Ok() && valid.Length == tags.Length == data.Length == g.lines
      && LinesOk(g, View(), m) && CacheOk(g, r, m, want, flight)
    }

    constructor (g: Geometry, cacheable: nat -> bool, ghost m: Mem)
      requires g.Ok()
      ensures Valid() && fresh(valid) && fresh(tags) && fresh(data) && this.m == m && want == None && flight == Quiet
    {
      this.g, this.cacheable, this.m, want, flight := g, cacheable, m, None, Quiet;
      valid, tags := new bool[g.lines](_ => false), new nat[g.lines](_ => 0);
      data := new Line[g.lines](_ => [ZERO_WORD, ZERO_WORD, ZERO_WORD, ZERO_WORD]);
      var line: Line := [ZERO_WORD, ZERO_WORD, ZERO_WORD, ZERO_WORD];
      r := Regs(Idle, false, ZERO_WORD, Fill(0, false, false, false, false, false, 0, 0, 0, 0, 0, NO_WORDS, line));
    }

    /** A request taken in Idle or Response: answered from its line, or the start of a fill. */
    method Lookup(addr: nat, c: In)
      requires Valid() && (r.state == Idle || r.state == Response) && !c.cancel && !c.invalidate
      requires want == None
      modifies `r
      ensures CacheOk(g, r, m, Some(addr), flight) && r.state in {Response, FillReq}
      ensures r.state == Response <==> CacheHit(g, cacheable, View(), addr)
      ensures r.state == Response ==> r.rspValid
    {
      hide LinesOk, LineIs, FillOk, Geometry.Index, Geometry.Tag, StartFill, LineNo, Lane, WordNo, Serves;
      var i := g.Index(LineNo(addr));
      if cacheable(addr) && valid[i] && tags[i] == g.Tag(LineNo(addr)) {
        HitReadsMemory(g, cacheable, View(), m, addr);
        r := r.(state := Response, rspValid := true, rspData := data[i][Lane(addr)]);
      } else {
        StartFillOk(g, cacheable, r.fill, addr, m);
        r := Regs(FillReq, false, r.rspData, StartFill(g, cacheable, r.fill, addr));
      }
    }

    /** A request that hits the line being filled is answered from the words already received. */
    method TakeFillHit(addr: nat)
      requires Valid() && (r.state == FillReq || r.state == FillWait) && FillHit(cacheable, r.fill, addr) && !r.rspValid
      requires want == None
      modifies `r
      ensures CacheOk(g, r, m, Some(addr), flight)
      ensures r == old(r).(rspValid := true, rspData := old(r.fill.data)[Lane(addr)])
    {
      hide LinesOk, LineIs, FillOk, LineNo, WordNo;
      FillHitReadsMemory(g, cacheable, r.fill, m, addr);
      r := r.(rspValid := true, rspData := r.fill.data[Lane(addr)]);
    }

    /** The last word completes the line, which becomes valid. */
    method Install(w: Word)
      requires Valid() && r.state == FillWait && !r.fill.uncached && r.fill.count == 3 && w == m[FillWord(r.fill)]
      modifies valid, tags, data
      ensures LinesOk(g, View(), m)
      ensures r.fill.index < g.lines && valid[r.fill.index] && tags[r.fill.index] == r.fill.tag
    {
      hide LineIs, Filled, Serves, LinesOk, FillWord;
      ghost var v := View();
      var f := r.fill;
      LastWord(g, f, m);
      LineInstalled(g, v, m, f);
      valid[f.index], tags[f.index], data[f.index] := true, f.tag, f.data[f.next := w];
      assert View() == Lines(v.valid[f.index := true], v.tags[f.index := f.tag], v.data[f.index := f.data[f.next := w]]);
    }

    /** Memory answers a fill: the demanded word goes to the client at once, the last one completes the line. */
    method Receive(c: In, remains: bool, ghost want': Option<nat>)
      requires Valid() && r.state == FillWait && c.memRvalid && MemoryOk(flight, c)
      requires r.fill.cpuWaiting ==> !c.cancel
      requires CacheOk(g, r, m, want', flight)
      modifies `r, valid, tags, data
      ensures LinesOk(g, View(), m) && CacheOk(g, r, m, want', Quiet)
      ensures old(r.fill.cpuWaiting) ==> r.rspValid
      ensures Work(r) < old(Work(r)) && r.state != FillWait
      ensures old(!r.fill.uncached && r.fill.count == 3) ==>
        old(r.fill.index) < g.lines && valid[old(r.fill.index)] && tags[old(r.fill.index)] == old(r.fill.tag)
    {
      hide LinesOk, LineIs, Filled;
      var f := r.fill;
      var now := ResponseNow(f, c);
      if f.cpuWaiting { DemandedFirst(g, f, m, want'); }
      if f.uncached {
        if f.cpuWaiting {
          r := Regs(Response, true, c.memRdata, f.(cpuWaiting := false, active := false));
        } else {
          r := r.(state := Idle, fill := f.(active := false));
        }
      } else if f.count == 3 {
        Install(c.memRdata);
        r := Regs(if remains then Response else Idle, r.rspValid, r.rspData, WithWord(f, c.memRdata).(active := false));
      } else {
        ReceivedKeeps(g, f, m);
        r := Regs(FillReq, r.rspValid || now, if now then c.memRdata else r.rspData,
                  WithWord(f, c.memRdata).(cpuWaiting := false, next := (f.next + 1) % 4, count := f.count + 1));
      }
    }

    /** All lines are dropped, and with them the fill, the response and the waiting request. */
    method Invalidate(c: In, ghost m': Mem)
      requires Valid() && MemoryOk(flight, c)
      modifies `r, valid
      ensures LinesOk(g, View(), m') && (forall i :: 0 <= i < g.lines ==> !valid[i])
      ensures CacheOk(g, r, m', None, FlightNext(old(r), m, flight, c))
      ensures r.state in {Idle, InvalidateWait}
      ensures r.state == InvalidateWait ==> FlightNext(old(r), m, flight, c) != Quiet
    {
      hide FillOk, LineIs;
      for i := 0 to valid.Length
        invariant r == old(r) && forall j :: 0 <= j < i ==> !valid[j]
      {
        valid[i] := false;
      }
      var f := r.fill.(allocate := false, cpuWaiting := false, wordValid := NO_WORDS);
      var waits := (r.state == FillReq && c.memReady) || (r.state == FillWait && !c.memRvalid);
      r := if waits then Regs(InvalidateWait, false, r.rspData, f) else Regs(Idle, false, r.rspData, f.(active := false));
    }

    /** An edge without a fill: a request is looked up, or a taken answer leaves the cache idle. */
    method Serve(c: In, accepts: bool, drained: bool)
      requires Valid() && (r.state == Idle || r.state == Response) && !c.invalidate
      requires accepts ==> c.req.Some? && want == None && !c.cancel
      modifies `r, `want
      ensures CacheOk(g, r, m, want, FlightNext(old(r), m, flight, c)) && want == if accepts then c.req else old(want)
      ensures accepts && CacheHit(g, cacheable, View(), c.req.value) ==> r.rspValid
      ensures r.state != FillWait
    {
      hide LinesOk, LineIs, FillOk, Serves, Filled, LineNo, Lane, WordNo, CacheHit;
      if accepts {
        Lookup(c.req.value, c);
        want := c.req;
      } else if r.state == Response && drained {
        r := r.(state := Idle);
      }
    }

    /** An edge of a fill: a hit on the words received, then what memory does. */
    method Filling(c: In, accepts: bool, remains: bool)
      requires Valid() && (r.state == FillReq || r.state == FillWait) && MemoryOk(flight, c) && !c.invalidate
      requires accepts ==> c.req.Some? && want == None && FillHit(cacheable, r.fill, c.req.value) && !r.rspValid
      requires r.fill.cpuWaiting ==> !c.cancel
      modifies `r, `want, valid, tags, data
      ensures LinesOk(g, View(), m) && CacheOk(g, r, m, want, FlightNext(old(r), m, flight, c))
      ensures want == if accepts then c.req else old(want)
      ensures old(r.state) == FillWait && c.memRvalid && old(r.fill.cpuWaiting) ==> r.rspValid
      ensures if (if old(r.state) == FillReq then c.memReady else c.memRvalid) then Work(r) < old(Work(r)) else Work(r) == old(Work(r))
    {
      hide LinesOk, LineIs, FillOk, Serves, Filled, LineNo, Lane, WordNo;
      ghost var was := r;
      if accepts {
        TakeFillHit(c.req.value);
        want := c.req;
      }
      FillCounts(g, was, m);
      if r.state == FillReq {
        if c.memReady {
          r := r.(state := FillWait);
        }
      } else if c.memRvalid {
        Receive(c, remains, want);
      }
    }

    /** The state machine over one edge, once answered and cancelled requests are settled. */
    method Advance(c: In, accepts: bool, drained: bool, remains: bool, ghost m': Mem)
      requires Valid() && MemoryOk(flight, c) && (m' != m ==> c.invalidate)
      requires accepts ==> c.req.Some? && want == None && !c.cancel && !c.invalidate && r.state in {Idle, Response, FillReq, FillWait}
      requires accepts && r.state in {FillReq, FillWait} ==> FillHit(cacheable, r.fill, c.req.value) && !r.rspValid
      requires r.fill.cpuWaiting ==> !c.cancel
      modifies `r, `want, `flight, valid, tags, data
      ensures LinesOk(g, View(), m') && CacheOk(g, r, m', want, flight) && flight == FlightNext(old(r), m, old(flight), c)
      ensures want == if c.invalidate then None else if accepts then c.req else old(want)
      ensures accepts && old(CacheHit(g, cacheable, View(), c.req.value)) && old(r.state) in {Idle, Response} ==> r.rspValid
      ensures old(r.state) == FillWait && c.memRvalid && old(r.fill.cpuWaiting) && !c.invalidate ==> r.rspValid
      ensures old(Work(r)) > 0 && !c.invalidate ==>
        Work(r) < old(Work(r)) || (Work(r) == old(Work(r)) && !(if old(r.state) == FillReq then c.memReady else c.memRvalid))
      ensures c.invalidate ==> forall i :: 0 <= i < g.lines ==> !valid[i]
    {
      hide LinesOk, LineIs, CacheOk, Filled, LineNo, Lane, WordNo, CacheHit, FillHit;
      ghost var was := r;
      if c.invalidate {
        Invalidate(c, m');
        want := None;
      } else if r.state == Idle || r.state == Response {
        Serve(c, accepts, drained);
      } else if r.state == FillReq || r.state == FillWait {
        Filling(c, accepts, remains);
      } else if c.memRvalid {
        InvalidatedWait(g, r, m, want, flight, Quiet);
        r := r.(state := Idle, fill := r.fill.(active := false, cpuWaiting := false, wordValid := NO_WORDS));
      }
      flight := FlightNext(was, m, flight, c);
    }

    /** What the cache shows in a cycle. */
    method Outputs(c: In) returns (ready: bool, rsp: Option<Word>, mem: Option<nat>)
      requires Valid() && ClientOk(r, want, c)
      ensures ready == ReqReady(cacheable, r, c)
      ensures rsp == if r.rspValid then Some(r.rspData) else None
      ensures rsp.Some? ==> want.Some? && rsp.value == m[WordNo(want.value)]
      ensures mem == if r.state == FillReq then Some(8 * FillWord(r.fill)) else None
    {
      hide LinesOk, LineIs, CacheOk, Filled, LineNo, Lane, WordNo, CacheHit, FillHit, ReqReady, Settled, Work,
        FillWord;
      Facts(g, cacheable, r, m, want, flight, c);
      ready := ReqReady(cacheable, r, c);
      rsp := if r.rspValid then Some(r.rspData) else None;
      mem := if r.state == FillReq then Some(8 * FillWord(r.fill)) else None;
    }

    /** A taken answer and a cancelled request leave the registers. */
    method Settle(c: In)
      requires Valid() && ClientOk(r, want, c)
      modifies `r, `want
      ensures Valid() && want == SettledWant(old(r), old(want), c)
      ensures r.state == old(r.state) && Work(r) == old(Work(r)) && FlightNext(r, m, flight, c) == FlightNext(old(r), m, flight, c)
      ensures r.fill.cpuWaiting <==> old(r.fill.cpuWaiting) && !c.cancel
      ensures old(Accepts(cacheable, r, c)) ==>
        && c.req.Some? && want == None && !c.cancel && !c.invalidate && r.state in {Idle, Response, FillReq, FillWait}
        && (r.state in {FillReq, FillWait} ==> FillHit(cacheable, r.fill, c.req.value) && !r.rspValid)
    {
      hide LinesOk, LineIs, CacheOk, Filled, LineNo, Lane, WordNo, CacheHit, FillHit, Accepts, Settled, Work,
        FillWord, FlightNext;
      Facts(g, cacheable, r, m, want, flight, c);
      SettledKeeps(g, r, m, want, flight, c);
      r, want := Settled(r, c), SettledWant(r, want, c);
    }

    /** One clock edge. Every answer is the memory word of the outstanding request, which is never forgotten: it is
        answered or being filled until the client takes the answer or drops the request. Memory may change only
        under an invalidate. */
    method Clock(c: In, ghost m': Mem) returns (ready: bool, rsp: Option<Word>, mem: Option<nat>)
      requires Valid() && MemoryOk(flight, c) && ClientOk(r, want, c) && (m' != m ==> c.invalidate)
      modifies this, valid, tags, data
      ensures Valid() && m == m'
      ensures ready == ReqReady(cacheable, old(r), c)
      ensures rsp.Some? ==> old(want).Some? && rsp.value == old(m)[WordNo(old(want).value)]
      ensures want == WantNext(cacheable, old(r), old(want), c)
      ensures mem == if old(r.state) == FillReq then Some(8 * FillWord(old(r.fill))) else None
      ensures flight == FlightNext(old(r), old(m), old(flight), c)
      // A hit answers in the next cycle, and so does the first word of a fill the client still waits for.
      ensures c.req.Some? && ready && old(CacheHit(g, cacheable, View(), c.req.value)) && old(r.state) in {Idle, Response} ==> r.rspValid
      ensures old(r.state) == FillWait && c.memRvalid && old(r.fill.cpuWaiting) && !c.cancel && !c.invalidate ==> r.rspValid
      // A fill makes progress whenever memory does; an invalidate leaves no line valid.
      ensures old(Work(r)) > 0 && !c.invalidate ==>
        Work(r) < old(Work(r)) || (Work(r) == old(Work(r)) && !(if old(r.state) == FillReq then c.memReady else c.memRvalid))
      ensures c.invalidate ==> forall i :: 0 <= i < g.lines ==> !valid[i]
    {
      hide LinesOk, LineIs, CacheOk, Filled, LineNo, Lane, WordNo, CacheHit, FillHit, ReqReady, Work, RspRemains,
        FillWord, FlightNext, MemoryOk, ClientOk, Geometry.Ok;
      var was := r;
      ready, rsp, mem := Outputs(c);
      Settle(c);
      Advance(c, c.req.Some? && ready, !was.rspValid || c.rspReady, RspRemains(was, c), m');
      m := m';
    }
  }

  /** What the registers say before an edge. */
  lemma Facts(g: Geometry, cacheable: nat -> bool, r: Regs, m: Mem, want: Option<nat>, flight: Flight, c: In)
    requires g.Ok() && CacheOk(g, r, m, want, flight) && ClientOk(r, want, c)
    ensures |r.fill.wordValid| == 4
    ensures r.rspValid ==> want.Some? && r.rspData == m[WordNo(want.value)]
    ensures var r1 := Settled(r, c);
      && FlightNext(r1, m, flight, c) == FlightNext(r, m, flight, c)
      && r1.state == r.state && Work(r1) == Work(r) && FillWord(r1.fill) == FillWord(r.fill) && |r1.fill.wordValid| == 4
      && (r1.fill.cpuWaiting <==> r.fill.cpuWaiting && !c.cancel)
      && (Accepts(cacheable, r, c) ==> c.req.Some? && SettledWant(r, want, c) == None && !c.cancel && !c.invalidate)
      && (Accepts(cacheable, r, c) && (r.state == FillReq || r.state == FillWait) ==>
            FillHit(cacheable, r1.fill, c.req.value) && !r1.rspValid)
    ensures Accepts(cacheable, r, c) ==> r.state in {Idle, Response, FillReq, FillWait}
  {
    hide FillOk, Serves, LineNo, Lane;
  }

  lemma InvalidatedWait(g: Geometry, r: Regs, m: Mem, want: Option<nat>, flight: Flight, flight': Flight)
    requires g.Ok() && CacheOk(g, r, m, want, flight) && r.state == InvalidateWait
    ensures CacheOk(g, r, m, want, flight')
    ensures CacheOk(g, r.(state := Idle, fill := r.fill.(active := false, cpuWaiting := false, wordValid := NO_WORDS)), m, want, flight')
  {
    hide FillOk, Serves, LineNo, Lane;
  }

  lemma FillCounts(g: Geometry, r: Regs, m: Mem)
    requires g.Ok() && (r.state == FillReq || r.state == FillWait) && FillOk(g, r.fill, m)
    ensures r.fill.count < 4
  {
  }
}
