/** A run of the data cache in which memory takes one device store twice. */
module StoreRepeat {
  import opened Bytes
  import opened Eei
  import opened DCacheCoherence
  import opened FlatMemory
  import opened DCache
  import opened CacheTurns

  const STORE := Access(64, true, ZERO_WORD, FULL_MASK, false, ADD, false, false, 3)

  /** A write-through cache whose RAM ends below the store's address. */
  ghost predicate Small(c: DataCache)
    reads c, c.valid, c.dirty, c.tags, c.data, c.ring, c.fillData
  {
    c.Valid() && !c.writeBack && c.g == Geometry(2, 0, 64)
  }

  lemma NextOfStore(c: DataCache)
    requires Small(c)
    ensures c.NextOf(STORE, false) == BypassReq && !Cacheable(c.g, STORE)
  {
    hide Coherent, DataCache.Control;
  }

  predicate Holds(s: Snapshot) { s.state == BypassReq && s.bypass == Some(STORE) }

  /** While the store waits nothing is owed: the processor has been told that it is done. */
  lemma Held(c: DataCache)
    requires Small(c)
    ensures Holds(c.Snap()) <==> c.state == BypassReq && c.saved == STORE
    ensures Holds(c.Snap()) ==> c.flat.owed == Nothing
  {
    hide Coherent;
  }

  lemma Idles(c: DataCache)
    requires Small(c) && c.state == Idle && !c.rspValid && c.Pending() == [] && !c.flushActive
    ensures Open(c.Snap()) && c.Snap().pending == []
  {
    hide Coherent, DataCache.Control, DataCache.Work;
  }

  lemma TakenOnBus(bus: Bus, in_: In)
    requires |bus.mem| == Geometry(2, 0, 64).Words() && in_.memReady
    ensures BusNext(Geometry(2, 0, 64), bus, Some(STORE), in_, DO_NOTHING).flight == Device
  {
  }

  /** One edge of the cache, recorded. */
  method Edges(c: DataCache, in_: In) returns (ghost t: Turn)
    requires Small(c) && BusOk(c.g, c.bus, in_) && (in_.invalidate ==> in_.cpu == None && c.flat.owed == Nothing)
    modifies c, c.valid, c.dirty, c.tags, c.data, c.ring, c.fillData
    ensures Small(c) && t.before == old(c.Snap()) && t.after == c.Snap() && t.in_ == in_
    ensures Edge(false, t.before, t.after, in_, t.ready, t.req) && Turns(false, [t])
    ensures in_.cpu == Some(STORE) && t.ready && !in_.memReady ==> c.state == BypassReq && c.saved == STORE
    ensures c.bus == BusLapsed(BusNext(c.g, BusLapsed(old(c.bus), in_.lost), t.req, in_, DO_NOTHING), in_.lost)
  {
    hide Coherent, DataCache.Control, DataCache.Work, DataCache.Snap, Edge, BusNext, BusLapsed, BusOk, Cacheable,
      DataCache.NextOf, DataCache.HitsDirty, DataCache.Pending, FlatStep, DataCache.FastHits;
    NextOfStore(c);
    ghost var before := c.Snap();
    var out, _ := c.Clock(in_, DO_NOTHING);
    t := Turn(before, in_, out.ready, out.mem, c.Snap());
  }

  /** Memory takes the store, and no request of the processor asks for it. */
  predicate Made(t: Turn) { t.in_.cpu == None && t.in_.memReady && t.req == Some(STORE) }

  lemma TakenTwice(accepted: Turn, first: Turn, last: Turn)
    requires Turns(false, [accepted]) && Turns(false, [first]) && Turns(false, [last])
    requires accepted.after == first.before && first.after == last.before
    requires Holds(first.before) && Made(first) && Holds(last.before) && Made(last) && last.after.state != BypassReq
    ensures Turns(false, [accepted] + [first, last]) && Waits(false, [first, last]) && Taken([first, last]) == 2
    ensures forall i | 0 <= i < 2 :: Made([first, last][i])
  {
    hide Edge;
    var waits := [first, last];
    assert [first] + [last] == waits && [accepted] + [first] == [accepted, first];
    assert [accepted, first] + [last] == [accepted] + waits;
    AppendTurn(false, [first], last);
    AppendTurn(false, [accepted], first);
    AppendTurn(false, [accepted, first], last);
    assert waits[..1] == [first] && [first][..0] == [];
    assert Taken([first]) == 1;
  }

  lemma AppendTurn(writeBack: bool, ts: seq<Turn>, t: Turn)
    requires Turns(writeBack, ts) && Turns(writeBack, [t]) && ts != [] && ts[|ts| - 1].after == t.before
    ensures Turns(writeBack, ts + [t])
  {
    hide Edge;
    assert [t][0] == t;
  }

  /** The store is accepted and waits; memory takes it in the cycle of an invalidate, and once more after that. */
  method StoreTwice() returns (c: DataCache, ghost accepted: Turn, ghost waits: seq<Turn>)
    ensures fresh(c) && c.Valid() && accepted.in_.cpu == Some(STORE) && accepted.ready
    ensures Turns(false, [accepted] + waits) && Waits(false, waits) && Taken(waits) == 2
    ensures |waits| == 2 && forall i | 0 <= i < 2 :: Made(waits[i])
  {
    hide Coherent, DataCache.Control, DataCache.Work, DataCache.Snap, DataCache.Pending, Edge, Turns, Waits;
    c := new DataCache(2, 0, 64, 2, false, seq(8, i => ZERO_WORD));
    Idles(c);
    accepted := Edges(c, QUIET.(cpu := Some(STORE)));
    AdmittedAtOnce(false, accepted);
    Held(c);
    ghost var first := Edges(c, QUIET.(invalidate := true, memReady := true));
    BypassTurn(false, first);
    Held(c);
    ghost var last := Edges(c, QUIET.(memReady := true, memRvalid := true));
    BypassTurn(false, last);
    TakenTwice(accepted, first, last);
    waits := [first, last];
  }
}
