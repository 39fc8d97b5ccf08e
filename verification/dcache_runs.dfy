/** Whole runs of the flat memory that the data cache implements. */
module FlatRuns {
  import opened Bytes
  import opened Eei
  import opened DCacheCoherence
  import opened FlatMemory

  datatype Step = Step(before: Flat, in_: In, out: Out, hidden: Hidden, unit: AtomicUnit, after: Flat)

  /** A run: every step is a flat-memory step and starts where the last one ended. */
  ghost predicate Run(g: Geometry, run: seq<Step>) {
    && (forall i | 0 <= i < |run| ::
          FlatStep(g, run[i].before, run[i].after, run[i].in_, run[i].out, run[i].hidden, run[i].unit))
    && forall i | 0 < i < |run| :: run[i].before == run[i - 1].after
  }

  /** A masked write of one RAM word. */
  datatype MaskedWrite = MaskedWrite(x: nat, data: Word, mask: Mask)

  function Apply(words: seq<Word>, w: MaskedWrite): seq<Word> {
    if w.x < |words| then words[w.x := Merge(words[w.x], w.data, w.mask)] else words
  }

  function Replay(words: seq<Word>, writes: seq<MaskedWrite>): (r: seq<Word>)
    ensures |r| == |words|
  {
    if writes == [] then words
    else Apply(Replay(words, writes[..|writes| - 1]), writes[|writes| - 1])
  }

  /** The byte the latest write to this lane stored, if there is one. */
  function LatestByte(writes: seq<MaskedWrite>, x: nat, lane: nat): Option<Byte>
    requires lane < 8
  {
    if writes == [] then None
    else
      var w := writes[|writes| - 1];
      if w.x == x && w.mask[lane] then Some(w.data[lane]) else LatestByte(writes[..|writes| - 1], x, lane)
  }

  /** Replaying writes leaves in each byte what its latest writer stored. */
  lemma {:induction false} ReplayIsLatest(words: seq<Word>, writes: seq<MaskedWrite>, x: nat, lane: nat)
    requires x < |words| && lane < 8
    ensures
      Replay(words, writes)[x][lane]
      == match LatestByte(writes, x, lane) case None => words[x][lane] case Some(b) => b
  {
    if writes != [] {
      ReplayIsLatest(words, writes[..|writes| - 1], x, lane);
    }
  }

  /** The write an edge performs: an accepted store, or an atomic taking effect. */
  function StepWrites(g: Geometry, s: Step): seq<MaskedWrite>
    requires g.Ok() && |s.before.words| == g.Words()
    requires
      var t := Accepted(g, s.before, s.in_, s.out.ready, s.out.rvalid);
      Atomically(s.hidden) ==> t.owed.AtomicPending? && g.IsRam(t.owed.req.addr)
  {
    var stores :=
      if Admits(s.in_, s.out.ready) && Cacheable(g, s.in_.cpu.value) && s.in_.cpu.value.wen then
        var r := s.in_.cpu.value;
        [MaskedWrite(RamIx(g, r.addr), r.wdata, r.wmask)]
      else [];
    var t := Accepted(g, s.before, s.in_, s.out.ready, s.out.rvalid);
    var atomics :=
      if s.hidden == AtomicStep then
        var x := RamIx(g, t.owed.req.addr);
        [MaskedWrite(x, s.unit.run(t.owed.req, t.words[x], t.res).0, FULL_MASK)]
      else [];
    stores + atomics
  }

  /** All writes of a run, in the order the processor issued them. */
  ghost function Writes(g: Geometry, run: seq<Step>): seq<MaskedWrite>
    requires Run(g, run)
  {
    if run == [] then []
    else Writes(g, run[..|run| - 1]) + StepWrites(g, run[|run| - 1])
  }

  lemma {:induction false} ReplayAppend(words: seq<Word>, a: seq<MaskedWrite>, b: seq<MaskedWrite>)
    ensures Replay(words, a + b) == Replay(Replay(words, a), b)
  {
    if b == [] {
      assert a + b == a;
    } else {
      ReplayAppend(words, a, b[..|b| - 1]);
      assert (a + b)[..|a + b| - 1] == a + b[..|b| - 1];
    }
  }

  lemma ReplayOne(words: seq<Word>, w: MaskedWrite)
    ensures Replay(words, [w]) == Apply(words, w) && Replay(words, []) == words
  {
    assert [w][..0] == [];
  }

  lemma StepReplays(g: Geometry, s: Step)
    requires FlatStep(g, s.before, s.after, s.in_, s.out, s.hidden, s.unit)
    ensures s.after.words == Replay(s.before.words, StepWrites(g, s))
  {
    hide Replay, RamIx;
    var t := Accepted(g, s.before, s.in_, s.out.ready, s.out.rvalid);
    if s.hidden == AtomicStep {
      AtomicAlone(g, s);
      var x := RamIx(g, t.owed.req.addr);
      ReplayOne(s.before.words, MaskedWrite(x, s.unit.run(t.owed.req, t.words[x], t.res).0, FULL_MASK));
    } else if Admits(s.in_, s.out.ready) && Cacheable(g, s.in_.cpu.value) && s.in_.cpu.value.wen {
      var r := s.in_.cpu.value;
      var w := MaskedWrite(RamIx(g, r.addr), r.wdata, r.wmask);
      assert StepWrites(g, s) == [w];
      ReplayOne(s.before.words, w);
    } else {
      assert StepWrites(g, s) == [];
      ReplayOne(s.before.words, MaskedWrite(0, ZERO_WORD, FULL_MASK));
    }
  }

  /** An edge on which an atomic takes effect accepts no store. */
  lemma AtomicAlone(g: Geometry, s: Step)
    requires FlatStep(g, s.before, s.after, s.in_, s.out, s.hidden, s.unit) && s.hidden == AtomicStep
    ensures var t := Accepted(g, s.before, s.in_, s.out.ready, s.out.rvalid);
      var x := RamIx(g, t.owed.req.addr);
      t.words == s.before.words && StepWrites(g, s) == [MaskedWrite(x, s.unit.run(t.owed.req, t.words[x], t.res).0, FULL_MASK)]
  {
    hide RamIx;
  }

  /** After any run, memory is the initial memory with every store and atomic applied in program order. */
  lemma {:induction false} RunReplays(g: Geometry, run: seq<Step>)
    requires Run(g, run) && run != []
    ensures run[|run| - 1].after.words == Replay(run[0].before.words, Writes(g, run))
  {
    var last := run[|run| - 1];
    var init := run[..|run| - 1];
    StepReplays(g, last);
    if init == [] {
      assert Writes(g, init) == [];
      assert Writes(g, run) == StepWrites(g, last);
    } else {
      RunReplays(g, init);
      ReplayAppend(run[0].before.words, Writes(g, init), StepWrites(g, last));
    }
  }

  /** Words seen by step `j`: the replay of every write before it. */
  lemma WordsAt(g: Geometry, run: seq<Step>, j: nat)
    requires Run(g, run) && j < |run|
    ensures run[j].before.words == Replay(run[0].before.words, Writes(g, run[..j]))
  {
    if j == 0 {
      assert Writes(g, run[..0]) == [];
    } else {
      RunReplays(g, run[..j]);
    }
  }

  /** What is owed stays owed until it is answered, and nothing else is accepted meanwhile. */
  lemma {:induction false} ValueKept(g: Geometry, run: seq<Step>, j: nat, i: nat)
    requires Run(g, run) && j < i < |run| && run[j].after.owed.Value?
    requires forall k | j < k < i :: !run[k].out.rvalid
    ensures run[i].before.owed == run[j].after.owed
    decreases i
  {
    if j + 1 < i {
      ValueKept(g, run, j, i - 1);
      assert FlatStep(g, run[i - 1].before, run[i - 1].after, run[i - 1].in_, run[i - 1].out, run[i - 1].hidden, run[i - 1].unit);
    }
  }

  /** A request that comes with an invalidate is never answered, even if it is acknowledged: nothing is answered until
      another is taken in. */
  lemma {:induction false} NeverAnswered(g: Geometry, run: seq<Step>, j: nat, i: nat)
    requires Run(g, run) && j < i < |run|
    requires run[j].in_.invalidate && Answered(run[j].before, run[j].out.rvalid).owed == Nothing
    requires forall k | j < k < i :: !Admits(run[k].in_, run[k].out.ready)
    ensures run[i].before.owed == Nothing && !run[i].out.rvalid
    decreases i
  {
    hide RamIx;
    if j + 1 < i { NeverAnswered(g, run, j, i - 1); }
    assert FlatStep(g, run[i - 1].before, run[i - 1].after, run[i - 1].in_, run[i - 1].out, run[i - 1].hidden, run[i - 1].unit);
    assert FlatStep(g, run[i].before, run[i].after, run[i].in_, run[i].out, run[i].hidden, run[i].unit);
  }

  /** In every run, the answer to a cacheable load is the initial memory overlaid, byte by byte, with the
      latest of all stores and atomics issued before the load. */
  lemma LoadReadsLatest(g: Geometry, run: seq<Step>, j: nat, i: nat, lane: nat)
    requires Run(g, run) && j < i < |run| && lane < 8
    requires Admits(run[j].in_, run[j].out.ready)
    requires Cacheable(g, run[j].in_.cpu.value) && !run[j].in_.cpu.value.wen
    requires run[i].out.rvalid && forall k | j < k < i :: !run[k].out.rvalid
    ensures
      var x := RamIx(g, run[j].in_.cpu.value.addr);
      && x < |run[0].before.words|
      && run[i].out.rdata[lane]
         == match LatestByte(Writes(g, run[..j]), x, lane)
            case None => run[0].before.words[x][lane]
            case Some(b) => b
  {
    var x := RamIx(g, run[j].in_.cpu.value.addr);
    assert FlatStep(g, run[j].before, run[j].after, run[j].in_, run[j].out, run[j].hidden, run[j].unit);
    assert run[j].after.owed == Value(run[j].before.words[x]);
    ValueKept(g, run, j, i);
    assert FlatStep(g, run[i].before, run[i].after, run[i].in_, run[i].out, run[i].hidden, run[i].unit);
    WordsAt(g, run, j);
    ReplayIsLatest(run[0].before.words, Writes(g, run[..j]), x, lane);
  }

  /** The same for a fast load, answered within its own cycle. */
  lemma FastLoadReadsLatest(g: Geometry, run: seq<Step>, j: nat, lane: nat)
    requires Run(g, run) && j < |run| && lane < 8 && run[j].out.fastValid
    ensures
      && run[j].in_.fast.Some? && g.Ok() && g.IsRam(run[j].in_.fast.value.addr)
      && var x := RamIx(g, run[j].in_.fast.value.addr);
      && x < |run[0].before.words|
      && run[j].out.fastData[lane]
         == match LatestByte(Writes(g, run[..j]), x, lane)
            case None => run[0].before.words[x][lane]
            case Some(b) => b
  {
    assert FlatStep(g, run[j].before, run[j].after, run[j].in_, run[j].out, run[j].hidden, run[j].unit);
    WordsAt(g, run, j);
    ReplayIsLatest(run[0].before.words, Writes(g, run[..j]), RamIx(g, run[j].in_.fast.value.addr), lane);
  }
}
