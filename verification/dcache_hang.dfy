/** The fill that an invalidate leaves waiting: when, for how long, and a run that gets there. */
module FillHang {
  import opened Bytes
  import opened Eei
  import opened DCacheCoherence
  import opened FlatMemory
  import opened DCache
  import opened CacheTurns

  /** At the i-th edge an invalidate lost the awaited word, and none since has started a flush. */
  predicate LostAt(writeBack: bool, ts: seq<Turn>, i: nat)
    requires i < |ts|
  {
    && ts[i].before.Loses(writeBack, ts[i].in_)
    && forall j | i < j < |ts| :: !ts[j].before.Rescues(writeBack, ts[j].in_)
  }

  predicate Stranded(writeBack: bool, ts: seq<Turn>) {
    exists i | 0 <= i < |ts| :: LostAt(writeBack, ts, i)
  }

  lemma HungNext(writeBack: bool, t: Turn)
    requires Edge(writeBack, t.before, t.after, t.in_, t.ready, t.req)
    ensures t.after.Hung() <==> t.before.Loses(writeBack, t.in_) || (t.before.Hung() && !t.before.Rescues(writeBack, t.in_))
  {
    hide FillMoves;
  }

  lemma LostBefore(writeBack: bool, ts: seq<Turn>, i: nat)
    requires i < |ts| - 1
    ensures LostAt(writeBack, ts, i) <==>
              LostAt(writeBack, ts[..|ts| - 1], i) && !ts[|ts| - 1].before.Rescues(writeBack, ts[|ts| - 1].in_)
  {
    hide Snapshot.Loses, Snapshot.Rescues;
    var init := ts[..|ts| - 1];
    if LostAt(writeBack, ts, i) {
      forall j | i < j < |init| ensures !init[j].before.Rescues(writeBack, init[j].in_) {
        assert ts[j] == init[j];
      }
    }
  }

  lemma StrandedNext(writeBack: bool, ts: seq<Turn>)
    requires ts != []
    ensures
      var n := |ts| - 1;
      Stranded(writeBack, ts) <==>
        ts[n].before.Loses(writeBack, ts[n].in_)
        || (Stranded(writeBack, ts[..n]) && !ts[n].before.Rescues(writeBack, ts[n].in_))
  {
    hide LostAt, Snapshot.Loses, Snapshot.Rescues;
    var n := |ts| - 1;
    LostLast(writeBack, ts);
    forall i | 0 <= i < n
      ensures LostAt(writeBack, ts, i) <==> LostAt(writeBack, ts[..n], i) && !ts[n].before.Rescues(writeBack, ts[n].in_)
    {
      LostBefore(writeBack, ts, i);
    }
  }

  lemma LostLast(writeBack: bool, ts: seq<Turn>)
    requires ts != []
    ensures LostAt(writeBack, ts, |ts| - 1) <==> ts[|ts| - 1].before.Loses(writeBack, ts[|ts| - 1].in_)
  {
    hide Snapshot.Loses, Snapshot.Rescues;
  }

  /** In every run that starts well, a fill hangs at the end exactly if it is stranded. */
  lemma {:induction false} HungIfStranded(writeBack: bool, ts: seq<Turn>)
    requires Turns(writeBack, ts) && ts != [] && !ts[0].before.Hung()
    ensures ts[|ts| - 1].after.Hung() <==> Stranded(writeBack, ts)
  {
    hide Edge, LostAt, Snapshot.Hung, Snapshot.Loses, Snapshot.Rescues;
    var n := |ts| - 1;
    HungNext(writeBack, ts[n]);
    StrandedNext(writeBack, ts);
    if n != 0 {
      HungIfStranded(writeBack, ts[..n]);
    }
  }

  /** A write-through cache never recovers: it admits nothing and asks memory for nothing ever after. */
  lemma {:induction false} HungForGood(ts: seq<Turn>, i: nat)
    requires Turns(false, ts) && i < |ts| && ts[0].before.Hung()
    ensures ts[i].before.Hung() && ts[i].after.Hung() && !ts[i].ready && ts[i].req == None
  {
    hide FillMoves;
    if i != 0 { HungForGood(ts, i - 1); }
    assert Edge(false, ts[i].before, ts[i].after, ts[i].in_, ts[i].ready, ts[i].req);
  }

  const LOAD := Access(0, false, ZERO_WORD, FULL_MASK, false, LR, false, false, 3)

  const ZEROS: seq<Word> := seq(8, i => ZERO_WORD)

  /** A write-through cache over zeroed memory, in a fill or about to start one. */
  ghost predicate Zeroed(c: DataCache)
    reads c, c.valid, c.dirty, c.tags, c.data, c.ring, c.fillData
  {
    c.Valid() && !c.writeBack && c.g == Geometry(2, 0, 64) && c.flat.words == ZEROS && !c.flat.owed.AtomicPending?
  }

  /** While a write-through cache waits for a word, memory is flat and the read is open unless it hangs. */
  lemma Waiting(c: DataCache)
    requires Zeroed(c) && c.state == LoadFillWait
    ensures c.bus.mem == ZEROS && (c.Snap().Hung() || c.bus.flight.Reading?)
    ensures c.Work() == 7 - 2 * c.fill.count && (0 < c.fill.count ==> c.flat.owed == Nothing || c.rspValid)
  {
    hide LinesAgree, MemoryAgrees, BufferOk, FillWords, FillOwes, FillRegs;
    c.NoDirtyLine();
    c.NothingDirty();
  }

  /** Memory takes the request for a word. */
  method Ask(c: DataCache)
    requires Zeroed(c) && c.state == LoadFillReq && c.bus.flight == Quiet
    modifies c, c.valid, c.dirty, c.tags, c.data, c.ring, c.fillData
    ensures Zeroed(c) && c.state == LoadFillWait && c.bus.flight.Reading? && c.Work() < old(c.Work())
  {
    hide Coherent, DataCache.Control, DataCache.Work;
    Asks(c);
    var _, _ := c.Clock(QUIET.(memReady := true), DO_NOTHING);
    Waiting(c);
  }

  lemma Asks(c: DataCache)
    requires Zeroed(c) && c.state == LoadFillReq
    ensures 0 < c.Work() && !c.flushActive
  {
    hide Coherent;
  }

  /** Memory answers with the first word. */
  method Answer(c: DataCache)
    requires Zeroed(c) && c.state == LoadFillWait && c.bus.flight.Reading? && c.fill.count == 0
    modifies c, c.valid, c.dirty, c.tags, c.data, c.ring, c.fillData
    ensures Zeroed(c) && c.state == LoadFillReq && c.bus.flight == Quiet && c.Work() < 7
  {
    hide Coherent, DataCache.Control, DataCache.Work;
    Waiting(c);
    var _, _ := c.Clock(QUIET.(memRvalid := true), DO_NOTHING);
  }

  /** A load misses, its first word arrives, the second is on its way, and an invalidate comes with it. */
  method LoseWord() returns (c: DataCache)
    ensures fresh(c) && c.Valid() && !c.writeBack && c.Snap().Hung()
  {
    hide Coherent, DataCache.Control, DataCache.Work;
    c := new DataCache(2, 0, 64, 2, false, ZEROS);
    Miss(c);
    Ask(c);
    Waiting(c);
    if c.fill.count == 0 {
      Answer(c);
      Ask(c);
      Waiting(c);
    }
    var _, _ := c.Clock(QUIET.(invalidate := true, memRvalid := true), DO_NOTHING);
  }

  lemma Ready(c: DataCache)
    requires Zeroed(c) && c.state == Idle && !c.rspValid && c.Pending() == [] && !c.flushActive
    requires forall i | 0 <= i < c.g.lines :: !c.valid[i]
    ensures var s := c.Snap(); s.state == Idle && s.pending == [] && !s.flushing && !s.responding
    ensures c.NextOf(LOAD, false) == LoadFillReq && !c.HitsDirty(LOAD) && Cacheable(c.g, LOAD)
  {
    hide Coherent, DataCache.Control, DataCache.Work;
  }

  method Miss(c: DataCache)
    requires Zeroed(c) && c.state == Idle && !c.rspValid && c.flat.owed == Nothing && c.Pending() == [] && c.bus.flight == Quiet
    requires !c.flushActive && forall i | 0 <= i < c.g.lines :: !c.valid[i]
    modifies c, c.valid, c.dirty, c.tags, c.data, c.ring, c.fillData
    ensures Zeroed(c) && c.state == LoadFillReq && c.bus.flight == Quiet
  {
    hide Coherent, DataCache.Control, DataCache.Work, Overlaps, AccessByteMask, DataCache.FastHits, FillMoves, RamIx,
      DataCache.Shape, DataCache.Snap, Edge, DataCache.NextOf, DataCache.HitsDirty, DataCache.Pending;
    Ready(c);
    ghost var before := c.Snap();
    var out, _ := c.Clock(QUIET.(cpu := Some(LOAD)), DO_NOTHING);
    AdmittedAtOnce(false, Turn(before, QUIET.(cpu := Some(LOAD)), out.ready, out.mem, c.Snap()));
  }
}
