/** The front end without prediction: 8-byte blocks in, instructions out, in the order of the program. */
module Fetch {
  import opened Eei
  import opened InstructionStream
  import Queues

  type Bits = b: seq<Half> | |b| == 4 witness [0, 0, 0, 0]

  datatype Block = Block(addr: nat, bits: Bits)

  datatype State = FetchIdle | FetchTranslate | FetchAccess | FetchWaitResp

  /** Fetch and issue registers. */
  datatype Regs = Regs(state: State, fetchPc: nat, reqVaddr: nat, reqPaddr: nat,
                       offset: nat, saved: bool, savedAddr: nat, savedBits: Half)

  /** One cycle's inputs: redirects, the core, translation and the instruction cache. */
  datatype In = In(hazard: bool, nextPc: nat, rready: bool, needTranslate: bool, trReqReady: bool, trRspValid: bool, trPa: nat,
                   icReqReady: bool, icRspValid: bool, icRspData: Bits)

  datatype Out = Out(core: Option<Issued>, icReq: Option<nat>, icRspReady: bool, trReq: Option<nat>)

  // ---- reassembly ----

  datatype Picked = Picked(pop: bool, issue: Option<Issued>)

  function HalfAt(r: Regs, b: Block): Half { if r.offset / 2 < 4 then b.bits[r.offset / 2] else 0 }

  /** What the issue stage does with the first block: skip it, take an instruction, or keep its last halfword. */
  function Pick(expand: Half -> nat, r: Regs, blk: Option<Block>, wready: bool, hazard: bool): Picked {
    if hazard || blk.None? || !wready then Picked(false, None)
    else
      var b := blk.value;
      var rvc := Compressed(HalfAt(r, b));
      if r.offset == 6 then
        if r.saved then Picked(false, Some(Issued(r.savedAddr / 8 * 8 + 6, Joined(r.savedBits, b.bits[0]), false)))
        else if rvc then Picked(true, Some(Issued(b.addr / 8 * 8 + 6, expand(HalfAt(r, b)), true)))
        else Picked(true, None)
      else
        var bits := if rvc then expand(HalfAt(r, b))
                    else (match r.offset
                          case 0 => Joined(b.bits[0], b.bits[1])
                          case 2 => Joined(b.bits[1], b.bits[2])
                          case 4 => Joined(b.bits[2], b.bits[3])
                          case _ => 0);
        Picked(!rvc && r.offset == 4, Some(Issued(b.addr / 8 * 8 + r.offset, bits, rvc)))
  }

  /** The issue registers after a pick. */
  function Moved(r: Regs, blk: Option<Block>, p: Picked): Regs {
    if blk.None? then r
    else
      var rvc := Compressed(HalfAt(r, blk.value));
      if r.offset == 6 && !rvc && !r.saved then
        if p.pop then r.(saved := true, savedAddr := blk.value.addr, savedBits := blk.value.bits[3]) else r
      else if p.issue.Some? then
        r.(offset := (r.offset + if r.saved || !rvc then 4 else 2) % 8, saved := false)
      else r
  }

  // ---- meaning ----

  function BlockAt(c: Code, a: nat): Block {
    Block(a, [c.half(a / 2), c.half(a / 2 + 1), c.half(a / 2 + 2), c.half(a / 2 + 3)])
  }

  /** The issue stage is about to form the instruction at `pos`; the next block it looks at is the one at `base`. */
  predicate IssueOk(c: Code, r: Regs, pos: nat, base: nat) {
    && pos % 2 == 0 && base % 8 == 0
    && r.offset == pos % 8
    && if r.saved then
         && pos % 8 == 6 && !Compressed(c.half(pos / 2))
         && r.savedAddr == pos / 8 * 8 && r.savedBits == c.half(pos / 2) && base == pos / 8 * 8 + 8
       else base == pos / 8 * 8
  }

  lemma Eighths(x: nat, a: nat, b: nat)
    requires x == 8 * a + b && b < 8
    ensures x / 8 == a && x % 8 == b
    ensures b % 2 == 0 ==> x / 2 == 4 * a + b / 2 && x % 2 == 0
  {
    var h := b / 2;
    assert b % 2 == 0 ==> x == 2 * (4 * a + h);
  }

  lemma Position(pos: nat, q: nat, o: nat, n: nat)
    requires pos == 8 * q + o && o < 8 && o % 2 == 0 && (n == 2 || n == 4)
    ensures pos / 8 == q && pos % 8 == o && pos / 2 == 4 * q + o / 2 && pos % 2 == 0
    ensures (pos + n) % 2 == 0 && (pos + n) % 8 == (o + n) % 8 && (pos + n) / 8 == if o + n < 8 then q else q + 1
  {
    Eighths(pos, q, o);
    if o + n < 8 { Eighths(pos + n, q, o + n); } else { Eighths(pos + n, q + 1, o + n - 8); }
  }

  /** Within a block. */
  lemma PickWithin(c: Code, r: Regs, pos: nat, q: nat)
    requires IssueOk(c, r, pos, 8 * q) && pos == 8 * q + r.offset && r.offset != 6 && !r.saved
    ensures var b := BlockAt(c, 8 * q);
      var p := Pick(c.expand, r, Some(b), true, false);
      && p.issue == Some(InstAt(c, pos))
      && IssueOk(c, Moved(r, Some(b), p), NextPc(c, pos), if p.pop then 8 * q + 8 else 8 * q)
  {
    hide Joined, Compressed;
    Position(8 * q, q, 0, 2);
    Position(pos, q, r.offset, 2);
    Position(pos, q, r.offset, 4);
  }

  /** At the last halfword of a block: a compressed instruction, the first half of a long one, or its second half. */
  lemma PickAtEnd(c: Code, r: Regs, pos: nat, q: nat)
    requires pos == 8 * q + 6 && IssueOk(c, r, pos, if r.saved then 8 * q + 8 else 8 * q)
    ensures var b := BlockAt(c, if r.saved then 8 * q + 8 else 8 * q);
      var p := Pick(c.expand, r, Some(b), true, false);
      && (p.issue.Some? ==> p.issue.value == InstAt(c, pos))
      && IssueOk(c, Moved(r, Some(b), p), if p.issue.Some? then NextPc(c, pos) else pos,
                 if p.pop || r.saved then 8 * q + 8 else 8 * q)
  {
    hide Joined, Compressed;
    Position(8 * q, q, 0, 2);
    Position(8 * q + 8, q + 1, 0, 2);
    Position(pos, q, 6, 2);
    Position(pos, q, 6, 4);
  }

  /** The instruction picked is the one at `pos`, also when it lies across two blocks; nothing is skipped. */
  lemma PickIsNext(c: Code, r: Regs, pos: nat, base: nat, wready: bool, hazard: bool)
    requires IssueOk(c, r, pos, base)
    ensures var p := Pick(c.expand, r, Some(BlockAt(c, base)), wready, hazard);
      && (p.issue.Some? ==> p.issue.value == InstAt(c, pos))
      && IssueOk(c, Moved(r, Some(BlockAt(c, base)), p), if p.issue.Some? then NextPc(c, pos) else pos,
                 if p.pop then base + 8 else base)
  {
    var q := pos / 8;
    if wready && !hazard {
      if r.offset == 6 { PickAtEnd(c, r, pos, q); } else { PickWithin(c, r, pos, q); }
    }
  }

  ghost predicate BlocksFrom(c: Code, base: nat, q: seq<Block>) {
    forall i :: 0 <= i < |q| ==> q[i] == BlockAt(c, base + 8 * i)
  }

  /** The fetch state continues where the queued blocks end; a response is awaited only with room for it. */
  predicate FetchOk(r: Regs, end: nat, queued: nat, size: nat) {
    match r.state
    case FetchIdle => r.fetchPc == end
    case FetchWaitResp => r.reqVaddr == end && r.fetchPc == end + 8 && queued + 3 <= size
    case _ => r.reqVaddr == end && r.fetchPc == end
  }

  /** Everything since the last redirect: where it went, and what the core has been given. */
  datatype Progress = Progress(start: nat, given: seq<Issued>, base: nat, pos: nat)

  ghost predicate FrontOk(c: Code, r: Regs, g: Progress, blocks: seq<Block>, waiting: seq<Issued>, size: nat) {
    && InStream(c, g.start, g.given, waiting, g.pos)
    && IssueOk(c, r, g.pos, g.base) && BlocksFrom(c, g.base, blocks)
    && FetchOk(r, g.base + 8 * |blocks|, |blocks|, size)
  }

  // ---- one edge ----

  function First<T>(q: seq<T>): Option<T> { if q == [] then None else Some(q[0]) }

  /** Queued blocks and the one arriving, instructions waiting and the one being formed. */
  function Arrived(blocks: seq<Block>, resp: Option<Block>): seq<Block> { if resp.Some? then blocks + [resp.value] else blocks }

  function Formed(waiting: seq<Issued>, issue: Option<Issued>): seq<Issued> { if issue.Some? then waiting + [issue.value] else waiting }

  /** The fetch registers after an edge without redirect: `responds` consumes the awaited block, `asks` is a request
      the cache takes. */
  function Advanced(r: Regs, c: In, responds: bool, asks: bool, mayTranslate: bool): Regs {
    match r.state
    case FetchIdle =>
      if c.needTranslate then if mayTranslate then r.(reqVaddr := r.fetchPc, state := FetchTranslate) else r
      else if asks then r.(reqVaddr := r.fetchPc, reqPaddr := r.fetchPc, fetchPc := r.fetchPc + 8, state := FetchWaitResp)
      else r
    case FetchTranslate => if c.trRspValid then r.(reqPaddr := c.trPa, state := FetchAccess) else r
    case FetchAccess => if asks then r.(fetchPc := r.fetchPc + 8, state := FetchWaitResp) else r
    case FetchWaitResp =>
      if !responds then r
      else if asks then r.(reqVaddr := r.fetchPc, reqPaddr := r.fetchPc, fetchPc := r.fetchPc + 8)
      else r.(state := FetchIdle)
  }

  /** What an edge asks of translation and cache: a block whose address needs translation is asked for at the
      translated address, any other at its own. */
  predicate Requests(r: Regs, r': Regs, c: In, icReq: Option<nat>, trReq: Option<nat>) {
    match r.state
    case FetchIdle =>
      && (r'.state == FetchTranslate ==> c.needTranslate && trReq == Some(r'.reqVaddr))
      && (r'.state == FetchWaitResp ==> !c.needTranslate && icReq == Some(r'.reqVaddr) && c.icReqReady)
    case FetchTranslate =>
      && icReq.None? && r'.reqVaddr == r.reqVaddr
      && (if c.trRspValid then r'.state == FetchAccess && r'.reqPaddr == c.trPa else r'.state == FetchTranslate)
    case FetchAccess =>
      && r'.reqVaddr == r.reqVaddr && r'.reqPaddr == r.reqPaddr
      && (icReq.Some? ==> icReq == Some(r.reqPaddr))
      && r'.state == (if icReq.Some? && c.icReqReady then FetchWaitResp else FetchAccess)
    case FetchWaitResp =>
      && (icReq.Some? ==> !c.needTranslate)
      && (r'.state == FetchWaitResp ==> if icReq.Some? && c.icReqReady then icReq == Some(r'.reqVaddr) else r'.reqVaddr == r.reqVaddr)
  }

  lemma RequestsMade(r: Regs, m: Regs, c: In, responds: bool, wants: bool, may: bool, icReq: Option<nat>, trReq: Option<nat>)
    requires m.state == r.state && m.fetchPc == r.fetchPc && m.reqVaddr == r.reqVaddr && m.reqPaddr == r.reqPaddr
    requires may ==> c.needTranslate && (r.state == FetchIdle ==> trReq == Some(r.fetchPc))
    requires wants ==> match r.state case FetchIdle => !c.needTranslate case FetchTranslate => false
                                     case FetchAccess => true case FetchWaitResp => responds && !c.needTranslate
    requires icReq == if !wants then None else if r.state == FetchAccess then Some(r.reqPaddr) else Some(r.fetchPc)
    ensures Requests(r, Advanced(m, c, responds, wants && c.icReqReady, may), c, icReq, trReq)
  {
  }

  lemma MovedKeepsRequest(r: Regs, blk: Option<Block>, p: Picked)
    ensures var m := Moved(r, blk, p);
      m.state == r.state && m.fetchPc == r.fetchPc && m.reqVaddr == r.reqVaddr && m.reqPaddr == r.reqPaddr
  {
  }

  lemma FetchAdvances(r: Regs, c: In, end: nat, queued: nat, size: nat, responds: bool, asks: bool, may: bool, queued': nat)
    requires FetchOk(r, end, queued, size)
    requires responds ==> r.state == FetchWaitResp
    requires asks ==> queued' + 3 <= size
    requires r.state == FetchWaitResp && !responds ==> queued' <= queued
    ensures FetchOk(Advanced(r, c, responds, asks, may), if responds then end + 8 else end, queued', size)
  {
  }

  lemma BlocksArrive(c: Code, base: nat, blocks: seq<Block>, resp: Option<Block>)
    requires BlocksFrom(c, base, blocks) && (resp.Some? ==> resp.value == BlockAt(c, base + 8 * |blocks|))
    ensures BlocksFrom(c, base, Arrived(blocks, resp))
  {
    hide BlockAt;
  }

  lemma BlocksPop(c: Code, base: nat, blocks: seq<Block>)
    requires BlocksFrom(c, base, blocks) && blocks != []
    ensures BlocksFrom(c, base + 8, blocks[1..])
  {
    hide BlockAt;
    forall i | 0 <= i < |blocks| - 1
      ensures blocks[1..][i] == BlockAt(c, base + 8 + 8 * i)
    {
      assert blocks[1..][i] == blocks[i + 1];
    }
  }

  function Rest(all: seq<Block>, pop: bool): seq<Block> { if pop && all != [] then all[1..] else all }

  function Left(formed: seq<Issued>, gives: bool): seq<Issued> { if gives && formed != [] then formed[1..] else formed }

  ghost function NextProgress(c: Code, g: Progress, p: Picked, formed: seq<Issued>, gives: bool): Progress {
    Progress(g.start, g.given + (if gives && formed != [] then [formed[0]] else []),
             if p.pop then g.base + 8 else g.base, if p.issue.Some? then NextPc(c, g.pos) else g.pos)
  }

  /** The issue side over one edge: what is popped, formed and given stays one stream. */
  lemma IssueAdvances(c: Code, r: Regs, g: Progress, all: seq<Block>, waiting: seq<Issued>, wready: bool, gives: bool)
    requires InStream(c, g.start, g.given, waiting, g.pos) && IssueOk(c, r, g.pos, g.base) && BlocksFrom(c, g.base, all)
    ensures var p := Pick(c.expand, r, First(all), wready, false);
      var formed := Formed(waiting, p.issue);
      var g' := NextProgress(c, g, p, formed, gives);
      && (p.pop ==> all != [])
      && InStream(c, g'.start, g'.given, Left(formed, gives), g'.pos)
      && IssueOk(c, Moved(r, First(all), p), g'.pos, g'.base) && BlocksFrom(c, g'.base, Rest(all, p.pop))
  {
    hide InStream, IssueOk, BlocksFrom, Pick, Moved, BlockAt, NextPc, InstAt;
    var p := Pick(c.expand, r, First(all), wready, false);
    var formed := Formed(waiting, p.issue);
    PickShape(c.expand, r, First(all), wready);
    if all != [] {
      HeadBlock(c, g.base, all);
      PickIsNext(c, r, g.pos, g.base, wready, false);
      if p.pop { BlocksPop(c, g.base, all); }
      if p.issue.Some? { Append(c, g.start, g.given, waiting, g.pos); }
    }
    if gives && formed != [] {
      Give(c, g.start, g.given, formed, if p.issue.Some? then NextPc(c, g.pos) else g.pos);
    }
    if !(gives && formed != []) { assert g.given + [] == g.given; }
  }

  lemma HeadBlock(c: Code, base: nat, all: seq<Block>)
    requires BlocksFrom(c, base, all) && all != []
    ensures all[0] == BlockAt(c, base)
  {
    hide BlockAt;
  }

  lemma PickShape(expand: Half -> nat, r: Regs, blk: Option<Block>, wready: bool)
    ensures blk.None? ==> Pick(expand, r, blk, wready, false) == Picked(false, None) && Moved(r, blk, Picked(false, None)) == r
  {
  }

  /** One edge without redirect keeps the front end in order. */
  lemma FrontAdvances(c: Code, r: Regs, g: Progress, blocks: seq<Block>, waiting: seq<Issued>, size: nat, x: In,
                      resp: Option<Block>, wready: bool, gives: bool, asks: bool, may: bool)
    requires FrontOk(c, r, g, blocks, waiting, size)
    requires resp.Some? ==> r.state == FetchWaitResp && resp.value == BlockAt(c, r.reqVaddr)
    requires
      var all := Arrived(blocks, resp);
      var p := Pick(c.expand, r, First(all), wready, false);
      asks ==> if resp.Some? then p.pop else |blocks| + 3 <= size
    ensures
      var all := Arrived(blocks, resp);
      var p := Pick(c.expand, r, First(all), wready, false);
      var formed := Formed(waiting, p.issue);
      && (p.pop ==> all != [])
      && FrontOk(c, Advanced(Moved(r, First(all), p), x, resp.Some?, asks, may), NextProgress(c, g, p, formed, gives),
                 Rest(all, p.pop), Left(formed, gives), size)
  {
    hide InStream, IssueOk, BlocksFrom, Pick, Moved, BlockAt, NextPc, InstAt, Advanced, FetchOk, Formed, Left;
    var all := Arrived(blocks, resp);
    var p := Pick(c.expand, r, First(all), wready, false);
    EndBlock(r, g.base + 8 * |blocks|, |blocks|, size);
    BlocksArrive(c, g.base, blocks, resp);
    IssueAdvances(c, r, g, all, waiting, wready, gives);
    var r1 := Moved(r, First(all), p);
    MovedKeepsFetch(r, First(all), p);
    FetchAdvances(r1, x, g.base + 8 * |blocks|, |blocks|, size, resp.Some?, asks, may, |Rest(all, p.pop)|);
    AdvancedKeepsIssue(c, r1, x, resp.Some?, asks, may, NextProgress(c, g, p, Formed(waiting, p.issue), gives));
  }

  lemma EndBlock(r: Regs, end: nat, queued: nat, size: nat)
    requires FetchOk(r, end, queued, size)
    ensures r.state == FetchWaitResp ==> r.reqVaddr == end && queued + 3 <= size
  {
  }

  lemma MovedKeepsFetch(r: Regs, blk: Option<Block>, p: Picked)
    ensures var m := Moved(r, blk, p);
      m.state == r.state && forall end, queued, size :: FetchOk(r, end, queued, size) ==> FetchOk(m, end, queued, size)
  {
  }

  lemma AdvancedKeepsIssue(c: Code, r: Regs, x: In, responds: bool, asks: bool, may: bool, g: Progress)
    ensures IssueOk(c, r, g.pos, g.base) ==> IssueOk(c, Advanced(r, x, responds, asks, may), g.pos, g.base)
  {
  }
}
