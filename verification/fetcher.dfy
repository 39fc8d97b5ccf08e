/** The instruction fetcher: two queues with bypasses around the reassembly, and the fetch state machine. */
module InstFetcher {
  import opened Eei
  import opened InstructionStream
  import opened Fetch
  import Queues

  class Fetcher {
    ghost const code: Code
    const expand: Half -> nat
    const fetchFifo: Queues.Fifo<Block>
    const issueFifo: Queues.Fifo<Issued>
    var r: Regs
    ghost var g: Progress

    ghost predicate Valid()
      reads this, fetchFifo, fetchFifo.mem, issueFifo, issueFifo.mem
    {
      && expand == code.expand && fetchFifo.Valid() && issueFifo.Valid()
      && FrontOk(code, r, g, fetchFifo.Contents(), issueFifo.Contents(), fetchFifo.mem.Length)
    }

    constructor (fetchSize: nat, issueSize: nat, expand: Half -> nat, ghost code: Code, start: nat)
      requires 3 <= fetchSize && 3 <= issueSize && expand == code.expand && start % 2 == 0
      ensures Valid() && fresh(fetchFifo) && fresh(issueFifo) && fresh(fetchFifo.mem) && fresh(issueFifo.mem)
      ensures g.start == start && g.given == [] && r.state == FetchIdle
    {
      fetchFifo := new Queues.Fifo<Block>(fetchSize, Block(0, [0, 0, 0, 0]));
      issueFifo := new Queues.Fifo<Issued>(issueSize, Issued(0, 0, false));
      this.expand, this.code := expand, code;
      r := Regs(FetchIdle, start / 8 * 8, 0, 0, start % 8, false, 0, 0);
      g := Progress(start, [], start / 8 * 8, start);
      new;
      Restarted(code, r, start, fetchSize);
    }

    /** What is combinational in a cycle: the pick, the core's instruction, and the requests. */
    function IssueReady(c: In): bool
      reads issueFifo
      requires issueFifo.Valid()
    {
      issueFifo.WReady() || (!c.hazard && !issueFifo.RValid() && c.rready)
    }

    function FetchReady(c: In): bool
      reads fetchFifo, issueFifo
      requires fetchFifo.Valid() && issueFifo.Valid()
    {
      (!fetchFifo.RValid() && !c.hazard && IssueReady(c)) || fetchFifo.WReadyTwo()
    }

    function Response(c: In): Option<Block>
      reads this
    {
      if r.state == FetchWaitResp && c.icRspValid then Some(Block(r.reqVaddr, c.icRspData)) else None
    }

    function Head(c: In): Option<Block>
      reads this, fetchFifo, fetchFifo.mem
      requires fetchFifo.Valid()
    {
      if fetchFifo.RValid() then Some(fetchFifo.RData()) else Response(c)
    }

    /** The cache answers the request that is open, with the block of the program it asked for. */
    ghost predicate CacheAnswers(c: In)
      reads this
    {
      c.icRspValid ==> r.state == FetchWaitResp && Block(r.reqVaddr, c.icRspData) == BlockAt(code, r.reqVaddr)
    }

    /** One clock edge. The instructions given to the core since the last redirect are the program's, in order. */
    method Clock(c: In) returns (out: Out)
      requires Valid() && CacheAnswers(c) && (c.hazard ==> c.nextPc % 2 == 0)
      modifies this, fetchFifo, fetchFifo.mem, issueFifo, issueFifo.mem
      ensures Valid() && g.given == Stream(code, g.start, |g.given|)
      // Whenever a block is awaited the queue keeps room for it and for two more.
      ensures r.state == FetchWaitResp ==> fetchFifo.Count() + 3 <= fetchFifo.mem.Length
      ensures c.hazard ==> g.start == c.nextPc && g.given == [] && r.state == FetchIdle
      ensures !c.hazard ==>
        && g.start == old(g.start)
        && g.given == old(g.given) + (if out.core.Some? && c.rready then [out.core.value] else [])
      // An answer is always taken when it is shown, and no request is made while one stays open.
      ensures !c.hazard && c.icRspValid ==> out.icRspReady
      ensures out.icReq.Some? ==> !c.hazard && (old(r.state) != FetchWaitResp || (c.icRspValid && out.icRspReady))
      ensures out.icReq.Some? && old(r.state) != FetchAccess ==> out.icReq.value == old(r.fetchPc)
      ensures !c.hazard ==> Requests(old(r), r, c, out.icReq, out.trReq)
      // A queued instruction is offered, a block in hand is worked on, and room for a block makes the fetcher ask.
      ensures !c.hazard && old(issueFifo.RValid()) ==> out.core.Some?
      ensures !c.hazard && old(Head(c)).Some? && old(issueFifo.WReady()) ==> old(g.pos) + old(g.base) < g.pos + g.base
      ensures !c.hazard && old(fetchFifo.WReadyTwo()) && old(r.state) == FetchIdle ==>
        if c.needTranslate then out.trReq == Some(old(r.fetchPc)) else out.icReq == Some(old(r.fetchPc))
    {
      hide FrontOk, Pick, Moved, Advanced, Stream, BlockAt, Requests;
      if c.hazard {
        Redirect(c);
        out := Out(None, None, false, None);
      } else {
        out := Advance(c);
      }
      GivenIsStream(code, r, g, fetchFifo.Contents(), issueFifo.Contents(), fetchFifo.mem.Length);
      RoomAwaited(code, r, g, fetchFifo.Contents(), issueFifo.Contents(), fetchFifo.mem.Length);
    }

    /** A redirect empties the queues and starts over at the new address. */
    method Redirect(c: In)
      requires Valid() && c.hazard && c.nextPc % 2 == 0
      modifies this, fetchFifo, fetchFifo.mem, issueFifo, issueFifo.mem
      ensures Valid() && g == Progress(c.nextPc, [], c.nextPc / 8 * 8, c.nextPc) && r.state == FetchIdle
    {
      hide FrontOk;
      fetchFifo.Clock(true, false, Block(0, [0, 0, 0, 0]), false);
      issueFifo.Clock(true, false, Issued(0, 0, false), false);
      r := Regs(FetchIdle, c.nextPc / 8 * 8, 0, 0, c.nextPc % 8, false, r.savedAddr, r.savedBits);
      g := Progress(c.nextPc, [], c.nextPc / 8 * 8, c.nextPc);
      Restarted(code, r, c.nextPc, fetchFifo.mem.Length);
    }

    /** The block queue over an edge: an arriving block goes past the queue when the queue is empty and it is used up. */
    method QueueBlocks(resp: Option<Block>, pop: bool)
      requires fetchFifo.Valid() && (resp.Some? ==> fetchFifo.Count() + 2 <= fetchFifo.mem.Length)
      requires pop ==> Arrived(fetchFifo.Contents(), resp) != []
      modifies fetchFifo, fetchFifo.mem
      ensures fetchFifo.Valid()
      ensures fetchFifo.Contents() == Rest(old(Arrived(fetchFifo.Contents(), resp)), pop)
    {
      var stored := fetchFifo.RValid();
      fetchFifo.Clock(false, resp.Some? && !(!stored && pop), if resp.Some? then resp.value else Block(0, [0, 0, 0, 0]),
                      stored && pop);
    }

    /** The instruction queue over an edge, with its bypass to a core that is ready. */
    method QueueInstructions(issue: Option<Issued>, rready: bool) returns (core: Option<Issued>)
      requires issueFifo.Valid() && (issue.Some? ==> issueFifo.WReady() || (!issueFifo.RValid() && rready))
      modifies issueFifo, issueFifo.mem
      ensures issueFifo.Valid()
      ensures var formed := Formed(old(issueFifo.Contents()), issue);
        && issueFifo.Contents() == Left(formed, core.Some? && rready)
        && (core.Some? ==> formed != [] && core.value == formed[0])
        && (rready && formed != [] ==> core.Some?)
        && (old(issueFifo.RValid()) ==> core.Some?)
    {
      var stored := issueFifo.RValid();
      var bypass := issue.Some? && !stored && rready;
      core := if stored then Some(issueFifo.RData()) else if bypass then issue else None;
      issueFifo.Clock(false, issue.Some? && !bypass, if issue.Some? then issue.value else Issued(0, 0, false), rready);
    }

    /** The requests of a cycle, and the fetch and issue registers over its edge. */
    method Ask(c: In, head: Option<Block>, p: Picked, fetchReady: bool)
        returns (icReq: Option<nat>, trReq: Option<nat>, asks: bool, mayTranslate: bool)
      modifies `r
      ensures r == Advanced(Moved(old(r), head, p), c, old(Response(c)).Some?, asks, mayTranslate)
      ensures Requests(old(r), r, c, icReq, trReq)
      ensures asks ==> fetchReady && old(r.state) != FetchTranslate && (old(r.state) == FetchWaitResp ==> c.icRspValid && p.pop)
      ensures icReq.Some? && old(r.state) == FetchWaitResp ==> c.icRspValid && fetchReady
      ensures icReq.Some? && old(r.state) != FetchAccess ==> icReq.value == old(r.fetchPc)
      ensures fetchReady && old(r.state) == FetchIdle ==>
        if c.needTranslate then trReq == Some(old(r.fetchPc)) else icReq == Some(old(r.fetchPc))
    {
      hide Requests, Moved, Advanced;
      var responds := Response(c).Some?;
      var next := r.state == FetchWaitResp && responds && fetchReady && p.pop && !c.needTranslate;
      var wants := fetchReady && ((r.state == FetchIdle && !c.needTranslate) || r.state == FetchAccess || next);
      asks, mayTranslate := wants && c.icReqReady, fetchReady && c.needTranslate && c.trReqReady;
      icReq := if !wants then None else if r.state == FetchAccess then Some(r.reqPaddr) else Some(r.fetchPc);
      trReq := if r.state == FetchIdle && fetchReady && c.needTranslate then Some(r.fetchPc) else None;
      MovedKeepsRequest(r, head, p);
      RequestsMade(r, Moved(r, head, p), c, responds, wants, mayTranslate, icReq, trReq);
      r := Advanced(Moved(r, head, p), c, responds, asks, mayTranslate);
    }

    /** An edge without redirect. */
    method Advance(c: In) returns (out: Out)
      requires Valid() && CacheAnswers(c) && !c.hazard
      modifies this, fetchFifo, fetchFifo.mem, issueFifo, issueFifo.mem
      ensures Valid()
      ensures g.start == old(g.start) && g.given == old(g.given) + (if out.core.Some? && c.rready then [out.core.value] else [])
      ensures c.icRspValid ==> out.icRspReady
      ensures out.icReq.Some? ==> old(r.state) != FetchWaitResp || (c.icRspValid && out.icRspReady)
      ensures out.icReq.Some? && old(r.state) != FetchAccess ==> out.icReq.value == old(r.fetchPc)
      ensures Requests(old(r), r, c, out.icReq, out.trReq)
      ensures old(issueFifo.RValid()) ==> out.core.Some?
      ensures old(Head(c)).Some? && old(issueFifo.WReady()) ==> old(g.pos) + old(g.base) < g.pos + g.base
      ensures old(fetchFifo.WReadyTwo()) && old(r.state) == FetchIdle ==>
        if c.needTranslate then out.trReq == Some(old(r.fetchPc)) else out.icReq == Some(old(r.fetchPc))
    {
      hide FrontOk, Requests, Pick, Moved, Advanced, BlockAt, Left, Formed, Rest, Queues.Fifo.Contents,
        Queues.Fifo.Count;

      ghost var blocks, waiting, size := fetchFifo.Contents(), issueFifo.Contents(), fetchFifo.mem.Length;
      var issueReady, fetchReady, resp, head := IssueReady(c), FetchReady(c), Response(c), Head(c);
      RoomAwaited(code, r, g, blocks, waiting, size);
      assert head == First(Arrived(blocks, resp));
      var p := Pick(expand, r, head, issueReady, false);
      PickNeeds(expand, r, head, issueReady);
      var was := r;
      var icReq, trReq, asks, mayTranslate := Ask(c, head, p, fetchReady);
      var core := QueueInstructions(p.issue, c.rready);
      out := Out(core, icReq, was.state == FetchWaitResp && fetchReady, trReq);
      ghost var gives := core.Some? && c.rready;
      FrontAdvances(code, was, g, blocks, waiting, size, c, resp, issueReady, gives, asks, mayTranslate);
      QueueBlocks(resp, p.pop);
      MovesOn(code, g, p, Formed(waiting, p.issue), gives);
      g := NextProgress(code, g, p, Formed(waiting, p.issue), gives);
    }
  }

  lemma PickNeeds(expand: Half -> nat, r: Regs, blk: Option<Block>, wready: bool)
    ensures var p := Pick(expand, r, blk, wready, false); p.pop || p.issue.Some? <==> blk.Some? && wready
  {
  }

  lemma MovesOn(c: Code, g: Progress, p: Picked, formed: seq<Issued>, gives: bool)
    ensures var g' := NextProgress(c, g, p, formed, gives);
            p.pop || p.issue.Some? ==> g.pos + g.base < g'.pos + g'.base
  {
  }

  lemma GivenIsStream(c: Code, r: Regs, g: Progress, blocks: seq<Block>, waiting: seq<Issued>, size: nat)
    requires FrontOk(c, r, g, blocks, waiting, size)
    ensures g.given == Stream(c, g.start, |g.given|)
  {
    hide IssueOk, FetchOk, BlocksFrom;
  }

  /** Whenever a block is awaited there is room for it and two more requests' worth of slack is kept. */
  lemma RoomAwaited(c: Code, r: Regs, g: Progress, blocks: seq<Block>, waiting: seq<Issued>, size: nat)
    requires FrontOk(c, r, g, blocks, waiting, size)
    ensures r.state == FetchWaitResp ==> |blocks| + 3 <= size
  {
    hide IssueOk, BlocksFrom, InStream;
  }

  lemma Restarted(c: Code, r: Regs, start: nat, size: nat)
    requires start % 2 == 0 && r.state == FetchIdle && r.fetchPc == start / 8 * 8 && r.offset == start % 8 && !r.saved
    ensures FrontOk(c, r, Progress(start, [], start / 8 * 8, start), [], [], size)
  {
  }
}
