/** Runs of the data cache as its progress claims see them. */
module CacheTurns {
  import opened Bytes
  import opened Eei
  import opened FlatMemory
  import opened DCache

  /** One edge. */
  datatype Turn = Turn(before: Snapshot, in_: In, ready: bool, req: Option<Access>, after: Snapshot) {
    /** A processor request is refused. */
    predicate Refused() { in_.cpu.Some? && !ready && !in_.invalidate }
  }

  ghost predicate Turns(writeBack: bool, ts: seq<Turn>) {
    && (forall i | 0 <= i < |ts| :: Edge(writeBack, ts[i].before, ts[i].after, ts[i].in_, ts[i].ready, ts[i].req))
    && forall i | 0 < i < |ts| :: ts[i].before == ts[i - 1].after
  }

  /** A cycle in which nothing comes from outside, and an atomic unit for runs without atomics. */
  const QUIET := In(false, false, None, None, false, false, ZERO_WORD)
  const DO_NOTHING := AtomicUnit((r, w, res) => (w, w), (r, res) => res)

  /** An idle cache with an empty buffer admits every request. */
  lemma AdmittedAtOnce(writeBack: bool, t: Turn)
    requires Edge(writeBack, t.before, t.after, t.in_, t.ready, t.req)
    requires Open(t.before) && t.before.pending == [] && t.in_.cpu.Some?
    ensures t.ready
  {
    hide FillMoves, BypassMoves, MemoryServes;
  }

  /** Edges on which memory is ready. */
  function ReadyEdges(ts: seq<Turn>): (n: nat)
    ensures n <= |ts|
  {
    if ts == [] then 0 else ReadyEdges(ts[..|ts| - 1]) + if ts[|ts| - 1].in_.memReady then 1 else 0
  }

  predicate Open(s: Snapshot) { s.state == Idle && !s.flushing && !s.responding }

  /** While an idle cache refuses the request held, it stays idle, and every edge on which memory is ready drains
      the oldest store. */
  lemma {:induction false} RefusedDrains(writeBack: bool, ts: seq<Turn>)
    requires Turns(writeBack, ts) && ts != [] && Open(ts[0].before) && forall t :: t in ts ==> t.Refused()
    ensures Open(ts[|ts| - 1].after)
    ensures ReadyEdges(ts) <= |ts[0].before.pending|
    ensures ts[|ts| - 1].after.pending == ts[0].before.pending[ReadyEdges(ts)..]
  {
    hide FillMoves, BypassMoves, MemoryServes;
    var n := |ts| - 1;
    assert ts[n] in ts;
    if n != 0 {
      RefusedDrains(writeBack, ts[..n]);
    } else {
      assert ts[..0] == [];
    }
    assert Edge(writeBack, ts[n].before, ts[n].after, ts[n].in_, ts[n].ready, ts[n].req);
  }

  /** So the request is accepted once memory has been ready as often as there were stores pending. */
  lemma AcceptedOnceDrained(writeBack: bool, ts: seq<Turn>, n: nat)
    requires Turns(writeBack, ts) && n < |ts| && Open(ts[0].before)
    requires forall i | 0 <= i <= n :: ts[i].in_.cpu.Some? && !ts[i].in_.invalidate
    requires ReadyEdges(ts[..n]) == |ts[0].before.pending|
    ensures exists i | 0 <= i <= n :: ts[i].ready
  {
    hide FillMoves, BypassMoves, MemoryServes;
    if forall i | 0 <= i < n :: !ts[i].ready {
      if n != 0 { RefusedDrains(writeBack, ts[..n]); }
      assert Edge(writeBack, ts[n].before, ts[n].after, ts[n].in_, ts[n].ready, ts[n].req);
      assert ts[n].ready;
    }
  }

  /** Edges a held request may have to wait in any state, if memory serves each of them. */
  function Patience(s: Snapshot): nat { 2 * s.work + |s.pending| + if s.responding then 1 else 0 }

  /** Wherever the cache is, a held request is accepted within that many edges. */
  lemma {:induction false} AcceptedInTime(writeBack: bool, ts: seq<Turn>)
    requires Turns(writeBack, ts) && ts != []
    requires forall t :: t in ts ==> t.Refused() && MemoryServes(t.before.state, t.in_, t.req)
    ensures |ts| + Patience(ts[|ts| - 1].after) <= Patience(ts[0].before)
  {
    hide FillMoves, BypassMoves, MemoryServes;
    var n := |ts| - 1;
    assert ts[n] in ts;
    PatienceRunsOut(writeBack, ts[n]);
    if n != 0 { AcceptedInTime(writeBack, ts[..n]); }
  }

  lemma PatienceRunsOut(writeBack: bool, t: Turn)
    requires Edge(writeBack, t.before, t.after, t.in_, t.ready, t.req) && t.Refused()
    requires MemoryServes(t.before.state, t.in_, t.req)
    ensures Patience(t.after) < Patience(t.before)
  {
    hide FillMoves, BypassMoves;
  }

  // ---- bypass requests ----

  /** All of a bypass request's wait for memory. */
  ghost predicate Waits(writeBack: bool, ts: seq<Turn>) {
    && Turns(writeBack, ts) && ts != []
    && (forall i | 0 <= i < |ts| :: ts[i].before.state == BypassReq)
    && ts[|ts| - 1].after.state != BypassReq
  }

  /** Edges on which memory takes the request. */
  function Taken(ts: seq<Turn>): nat {
    if ts == [] then 0 else Taken(ts[..|ts| - 1]) + if ts[|ts| - 1].req.Some? && ts[|ts| - 1].in_.memReady then 1 else 0
  }

  /** Edges on which an invalidate meets its acceptance. */
  function Interrupted(ts: seq<Turn>): nat {
    if ts == [] then 0
    else Interrupted(ts[..|ts| - 1]) + if ts[|ts| - 1].in_.invalidate && ts[|ts| - 1].in_.memReady then 1 else 0
  }

  lemma BypassTurn(writeBack: bool, t: Turn)
    requires Edge(writeBack, t.before, t.after, t.in_, t.ready, t.req) && t.before.state == BypassReq
    ensures t.req == t.before.bypass
    ensures t.after.state == BypassReq <==> t.in_.invalidate || !t.in_.memReady
    ensures t.after.state == BypassReq ==> t.after.bypass == t.before.bypass
  {
    hide FillMoves, MemoryServes;
  }

  lemma {:induction false} TakenWhileWaiting(writeBack: bool, ts: seq<Turn>)
    requires Turns(writeBack, ts) && (ts != [] ==> ts[0].before.bypass.Some?)
    requires forall i | 0 <= i < |ts| :: ts[i].before.state == BypassReq && (ts[i].in_.invalidate || !ts[i].in_.memReady)
    ensures Taken(ts) == Interrupted(ts)
    ensures forall i | 0 <= i < |ts| :: ts[i].req == ts[0].before.bypass
    ensures ts != [] ==> ts[|ts| - 1].after.state == BypassReq && ts[|ts| - 1].after.bypass == ts[0].before.bypass
  {
    hide Edge;
    if ts != [] {
      var n := |ts| - 1;
      TakenWhileWaiting(writeBack, ts[..n]);
      BypassTurn(writeBack, ts[n]);
    }
  }

  /** A waiting bypass request is always the same, and memory takes it once for its own sake and once more for every
      invalidate that meets its acceptance; so exactly once if and only if there is none. */
  lemma TakenOnceAndAgain(writeBack: bool, ts: seq<Turn>)
    requires Waits(writeBack, ts) && ts != [] && ts[0].before.bypass.Some?
    ensures forall i | 0 <= i < |ts| :: ts[i].req == ts[0].before.bypass
    ensures Taken(ts) == 1 + Interrupted(ts)
    ensures Taken(ts) == 1 <==> forall i | 0 <= i < |ts| :: !(ts[i].in_.invalidate && ts[i].in_.memReady)
  {
    hide Edge, Interrupted, Taken, Turns, Waits;
    var n := |ts| - 1;
    var init := ts[..n];
    forall i | 0 <= i <= n
      ensures ts[i].before.state == BypassReq && (i < n <==> ts[i].in_.invalidate || !ts[i].in_.memReady)
    {
      WaitsTurn(writeBack, ts, i);
    }
    assert Turns(writeBack, init) by { WaitsInit(writeBack, ts); }
    TakenWhileWaiting(writeBack, init);
    WaitsTurn(writeBack, ts, n);
    if n != 0 { WaitsTurn(writeBack, ts, n - 1); }
    LastTakes(ts);
    InterruptedNever(ts);
  }

  lemma WaitsTurn(writeBack: bool, ts: seq<Turn>, i: nat)
    requires Waits(writeBack, ts) && i < |ts|
    ensures ts[i].before.state == BypassReq && ts[i].req == ts[i].before.bypass
    ensures i < |ts| - 1 <==> ts[i].in_.invalidate || !ts[i].in_.memReady
    ensures i < |ts| - 1 ==> ts[i + 1].before == ts[i].after
    ensures 0 < i ==> ts[i].before == ts[i - 1].after
  {
    hide Edge;
    BypassTurn(writeBack, ts[i]);
    if i < |ts| - 1 { assert ts[i + 1].before.state == BypassReq; }
  }

  lemma WaitsInit(writeBack: bool, ts: seq<Turn>)
    requires Waits(writeBack, ts)
    ensures Turns(writeBack, ts[..|ts| - 1])
  {
    hide Edge;
  }

  lemma LastTakes(ts: seq<Turn>)
    requires ts != [] && ts[|ts| - 1].in_.memReady && !ts[|ts| - 1].in_.invalidate && ts[|ts| - 1].req.Some?
    ensures Taken(ts) == Taken(ts[..|ts| - 1]) + 1 && Interrupted(ts) == Interrupted(ts[..|ts| - 1])
  {
  }

  lemma {:induction false} InterruptedNever(ts: seq<Turn>)
    ensures Interrupted(ts) == 0 <==> forall i | 0 <= i < |ts| :: !(ts[i].in_.invalidate && ts[i].in_.memReady)
  {
    if ts != [] {
      InterruptedNever(ts[..|ts| - 1]);
    }
  }
}
