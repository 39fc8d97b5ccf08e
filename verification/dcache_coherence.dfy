/** What the data cache must keep: the value-level invariant that ties cache lines, buffered
    stores and backing memory to one flat memory, and the lemma for each kind of update. */
module DCacheCoherence {
  import opened Bytes

  /** Sizes and placement of the cached RAM window. */
  datatype Geometry = Geometry(lines: nat, begin: nat, bytes: nat) {
    predicate Ok() {
      && 2 <= lines
      && begin % 32 == 0
      && bytes % 32 == 0
    }

    function Base(): nat { begin / 8 }

    function Words(): nat { bytes / 8 }

    predicate IsRam(addr: nat) { begin <= addr < begin + bytes }

    predicate IsRamWord(a: nat) { Base() <= a < Base() + Words() }

    /** Cache index and tag of 32-byte line number `line`: its remainder and quotient by `lines`. */
    function Index(line: nat): (i: nat)
      requires Ok()
      ensures i < lines
    {
      if line < lines then line else Index(line - lines)
    }

    function Tag(line: nat): nat
      requires Ok()
    {
      if line < lines then 0 else 1 + Tag(line - lines)
    }

    /** The line held at index `i` under tag `t`. */
    function LineAt(t: nat, i: nat): nat
    {
      if t == 0 then i else lines + LineAt(t - 1, i)
    }
  }

  const WORDS_PER_LINE: nat := 4

  type Line = l: seq<Word> | |l| == 4 witness [ZERO_WORD, ZERO_WORD, ZERO_WORD, ZERO_WORD]

  datatype Store = Store(addr: nat, wdata: Word, wmask: Mask, funct3: nat)

  /** Snapshot of the tag and data arrays. */
  datatype Arrays = Arrays(valid: seq<bool>, dirty: seq<bool>, tags: seq<nat>, data: seq<Line>) {
    predicate Sized(g: Geometry) {
      |valid| == |dirty| == |tags| == |data| == g.lines
    }
  }

  lemma {:induction false} LineSplit(g: Geometry, line: nat)
    requires g.Ok()
    ensures g.LineAt(g.Tag(line), g.Index(line)) == line
  {
    if g.lines <= line { LineSplit(g, line - g.lines); }
  }

  lemma {:induction false} LineJoin(g: Geometry, t: nat, i: nat)
    requires g.Ok() && i < g.lines
    ensures g.Tag(g.LineAt(t, i)) == t
    ensures g.Index(g.LineAt(t, i)) == i
  {
    if t != 0 { LineJoin(g, t - 1, i); }
  }

  /** Parts of a byte address: 32-byte line, 8-byte word, and the word's place in its line. */
  function LineNo(addr: nat): nat { addr / 32 }

  function WordNo(addr: nat): nat { addr / 8 }

  function Lane(addr: nat): (k: nat)
    ensures k < 4
  {
    addr / 8 % 4
  }

  /** Word `k` of a line, and back. */
  function WordAt(line: nat, k: nat): nat { 4 * line + k }

  function LineOf(a: nat): nat { a / 4 }

  lemma WordParts(addr: nat)
    ensures WordNo(addr) == WordAt(LineNo(addr), Lane(addr))
  {
  }

  lemma WordSplit(a: nat)
    ensures exists k: nat | k < 4 :: a == WordAt(LineOf(a), k)
  {
    assert a == WordAt(LineOf(a), a % 4);
  }

  lemma WordJoin(line: nat, k: nat)
    requires k < 4
    ensures LineOf(WordAt(line, k)) == line
    ensures forall line', k' | 0 <= line' && 0 <= k' < 4 && WordAt(line', k') == WordAt(line, k) :: line' == line && k' == k
  {
  }

  lemma RamWord(g: Geometry, addr: nat)
    requires g.Ok() && g.IsRam(addr)
    ensures g.IsRamWord(WordNo(addr))
  {
  }

  /** The bytes of line n and its words: the line lies in RAM as a whole or not at all. */
  lemma LineOfWords(g: Geometry, n: nat, k: nat)
    requires g.Ok() && k < 4
    ensures WordNo(32 * n + 8 * k) == WordAt(n, k)
    ensures g.IsRam(32 * n + 8 * k) <==> g.IsRamWord(WordAt(n, k))
    ensures g.IsRam(32 * n) ==> g.IsRam(32 * n + 8 * k)
  {
    var begin, words := g.begin / 32, g.bytes / 32;
    assert g.begin == 32 * begin && g.bytes == 32 * words;
    assert g.Base() == 4 * begin && g.Words() == 4 * words;
    assert 32 * n + 8 * k == 8 * (4 * n + k);
  }

  /** The cache holds line `line`. */
  predicate Hit(g: Geometry, v: Arrays, line: nat)
    requires g.Ok() && v.Sized(g)
  {
    v.valid[g.Index(line)] && v.tags[g.Index(line)] == g.Tag(line)
  }

  predicate DirtyCover(g: Geometry, v: Arrays, a: nat)
    requires g.Ok() && v.Sized(g)
  {
    Hit(g, v, LineOf(a)) && v.dirty[g.Index(LineOf(a))]
  }

  /** Word `a` as memory will hold it once the pending stores have drained in order. */
  function Overlay(w: Word, pending: seq<Store>, a: nat): Word {
    if pending == [] then w
    else
      var before := Overlay(w, pending[..|pending| - 1], a);
      var last := pending[|pending| - 1];
      if WordNo(last.addr) == a then Merge(before, last.wdata, last.wmask) else before
  }

  ghost predicate LinesAgree(g: Geometry, v: Arrays, flat: seq<Word>)
    requires g.Ok() && v.Sized(g) && |flat| == g.Words()
  {
    forall i | 0 <= i < g.lines && v.valid[i] ::
      LineAgrees(g, flat, g.LineAt(v.tags[i], i), v.data[i])
  }

  ghost predicate LineAgrees(g: Geometry, flat: seq<Word>, line: nat, data: Line)
    requires |flat| == g.Words()
  {
    forall k: nat | k < 4 ::
      g.IsRamWord(WordAt(line, k)) && data[k] == flat[WordAt(line, k) - g.Base()]
  }

  ghost predicate MemoryAgrees(g: Geometry, v: Arrays, pending: seq<Store>, mem: seq<Word>, flat: seq<Word>)
    requires g.Ok() && v.Sized(g) && |mem| == |flat| == g.Words()
  {
    forall a: nat | g.IsRamWord(a) && !DirtyCover(g, v, a) ::
      Overlay(mem[a - g.Base()], pending, a) == flat[a - g.Base()]
  }

  ghost predicate BufferOk(g: Geometry, v: Arrays, pending: seq<Store>, writeBack: bool)
    requires g.Ok() && v.Sized(g)
  {
    forall j | 0 <= j < |pending| ::
      g.IsRam(pending[j].addr) && (writeBack ==> !Hit(g, v, LineNo(pending[j].addr)))
  }

  ghost predicate Coherent(g: Geometry, writeBack: bool, v: Arrays, pending: seq<Store>, mem: seq<Word>, flat: seq<Word>)
  {
    && g.Ok() && v.Sized(g) && |mem| == |flat| == g.Words()
    && LinesAgree(g, v, flat)
    && MemoryAgrees(g, v, pending, mem, flat)
    && BufferOk(g, v, pending, writeBack)
    && (!writeBack ==> forall i | 0 <= i < g.lines :: !v.dirty[i])
  }

  /** The line of a RAM address starts in RAM, and the address is one of its words. */
  lemma LineStart(g: Geometry, addr: nat)
    requires g.Ok() && g.IsRam(addr)
    ensures g.IsRam(32 * LineNo(addr)) && LineNo(32 * LineNo(addr)) == LineNo(addr)
    ensures g.IsRamWord(WordNo(addr)) && WordNo(addr) == WordAt(LineNo(addr), Lane(addr))
  {
    hide LineNo, Lane, WordNo, WordAt, g.IsRamWord;
    RamWord(g, addr);
    WordParts(addr);
    LineBounds(addr, g.begin);
  }

  lemma LineBounds(addr: nat, begin: nat)
    requires begin % 32 == 0
    ensures 32 * LineNo(addr) <= addr < 32 * LineNo(addr) + 32 && LineNo(32 * LineNo(addr)) == LineNo(addr)
    ensures begin <= addr ==> begin <= 32 * LineNo(addr)
  {
    var b := begin / 32;
    assert begin == 32 * b;
  }

  lemma EmptyIsCoherent(g: Geometry, writeBack: bool, v: Arrays, words: seq<Word>)
    requires g.Ok() && v.Sized(g) && |words| == g.Words()
    requires forall i | 0 <= i < g.lines :: !v.valid[i] && !v.dirty[i]
    ensures Coherent(g, writeBack, v, [], words, words)
  {
    hide g.Index, g.Tag, g.LineAt, g.Base, g.Words, LineNo, WordNo, Lane, WordAt, LineOf;
  }

  /** A hit returns the flat word, whatever is still buffered. */
  lemma HitReadsFlat(g: Geometry, writeBack: bool, v: Arrays, pending: seq<Store>, mem: seq<Word>, flat: seq<Word>, addr: nat)
    requires Coherent(g, writeBack, v, pending, mem, flat)
    requires Hit(g, v, LineNo(addr))
    ensures g.IsRamWord(WordNo(addr))
    ensures v.data[g.Index(LineNo(addr))][Lane(addr)] == flat[WordNo(addr) - g.Base()]
  {
    hide g.Index, g.Tag, g.LineAt, g.Base, g.Words, LineNo, WordNo, Lane, WordAt, LineOf;
    LineSplit(g, LineNo(addr));
    WordParts(addr);
    assert LineAgrees(g, flat, LineNo(addr), v.data[g.Index(LineNo(addr))]);
  }

  /** With nothing buffered, an address no dirty line covers reads the same in memory and flat memory. */
  lemma MemoryReadsFlat(g: Geometry, writeBack: bool, v: Arrays, mem: seq<Word>, flat: seq<Word>, a: nat)
    requires Coherent(g, writeBack, v, [], mem, flat)
    requires g.IsRamWord(a) && !DirtyCover(g, v, a)
    ensures mem[a - g.Base()] == flat[a - g.Base()]
  {
    hide g.Index, g.Tag, g.LineAt, g.Base, g.Words, LineNo, WordNo, Lane, WordAt, LineOf;
    assert Overlay(mem[a - g.Base()], [], a) == mem[a - g.Base()];
  }

  function Hold(v: Arrays, i: nat, k: nat, w: Word): Arrays
    requires i < |v.data| && k < 4
  {
    v.(data := v.data[i := v.data[i][k := w]])
  }

  /** The store drains last, so memory will agree again. */
  lemma MemoryAfterStore(g: Geometry, v: Arrays, v': Arrays, pending: seq<Store>, mem: seq<Word>, flat: seq<Word>, s: Store)
    requires g.Ok() && v.Sized(g) && v'.Sized(g) && |mem| == |flat| == g.Words() && MemoryAgrees(g, v, pending, mem, flat)
    requires v'.valid == v.valid && v'.dirty == v.dirty && v'.tags == v.tags && g.IsRamWord(WordNo(s.addr))
    requires !DirtyCover(g, v, WordNo(s.addr))
    ensures
      var a := WordNo(s.addr) - g.Base();
      MemoryAgrees(g, v', pending + [s], mem, flat[a := Merge(flat[a], s.wdata, s.wmask)])
  {
    hide g.Index, g.Tag, g.LineAt, g.Base, g.Words, WordNo, LineOf, Merge;
    var flat' := flat[WordNo(s.addr) - g.Base() := Merge(flat[WordNo(s.addr) - g.Base()], s.wdata, s.wmask)];
    forall b: nat | g.IsRamWord(b) && !DirtyCover(g, v', b)
      ensures Overlay(mem[b - g.Base()], pending + [s], b) == flat'[b - g.Base()]
    {
      assert !DirtyCover(g, v, b);
      assert (pending + [s])[..|pending|] == pending;
    }
  }

  /** A word is hidden by a dirty line only in write-back mode and if its own line hits. */
  lemma ClearOfDirty(g: Geometry, writeBack: bool, v: Arrays, pending: seq<Store>, mem: seq<Word>, flat: seq<Word>, addr: nat)
    requires Coherent(g, writeBack, v, pending, mem, flat) && (writeBack ==> !Hit(g, v, LineNo(addr)))
    ensures !DirtyCover(g, v, WordNo(addr))
  {
    hide g.Index, g.Tag, LinesAgree, MemoryAgrees, BufferOk;
    assert LineOf(WordNo(addr)) == LineNo(addr);
  }

  /** The store enters the buffer; on a hit the line is updated too. */
  lemma EnqueueKeeps(g: Geometry, writeBack: bool, v: Arrays, pending: seq<Store>, mem: seq<Word>, flat: seq<Word>, s: Store)
    requires Coherent(g, writeBack, v, pending, mem, flat)
    requires g.IsRam(s.addr)
    requires writeBack ==> !Hit(g, v, LineNo(s.addr))
    ensures g.IsRamWord(WordNo(s.addr))
    ensures
      var i, k, a := g.Index(LineNo(s.addr)), Lane(s.addr), WordNo(s.addr) - g.Base();
      var v' := if Hit(g, v, LineNo(s.addr)) then Hold(v, i, k, Merge(v.data[i][k], s.wdata, s.wmask)) else v;
      Coherent(g, writeBack, v', pending + [s], mem, flat[a := Merge(flat[a], s.wdata, s.wmask)])
  {
    hide g.Index, g.Tag, g.LineAt, g.Base, g.Words, LineNo, WordNo, Lane, WordAt, LineOf, MemoryAgrees, Merge;
    var i, k, a := g.Index(LineNo(s.addr)), Lane(s.addr), WordNo(s.addr) - g.Base();
    var hit := Hit(g, v, LineNo(s.addr));
    RamWord(g, s.addr);
    var v' := if hit then Hold(v, i, k, Merge(v.data[i][k], s.wdata, s.wmask)) else v;
    var flat' := flat[a := Merge(flat[a], s.wdata, s.wmask)];
    StoreKeepsLines(g, v, flat, s.addr, Merge(flat[a], s.wdata, s.wmask));
    if hit { HitReadsFlat(g, writeBack, v, pending, mem, flat, s.addr); }
    assert LinesAgree(g, v', flat');
    assert !DirtyCover(g, v, WordNo(s.addr)) by { ClearOfDirty(g, writeBack, v, pending, mem, flat, s.addr); }
    MemoryAfterStore(g, v, v', pending, mem, flat, s);
  }

  /** Changing one flat word, and the cached copy of it if there is one, keeps every line in step. */
  lemma StoreKeepsLines(g: Geometry, v: Arrays, flat: seq<Word>, addr: nat, w: Word)
    requires g.Ok() && v.Sized(g) && |flat| == g.Words()
    requires g.IsRam(addr)
    requires LinesAgree(g, v, flat)
    ensures g.IsRamWord(WordNo(addr))
    ensures
      var v' := if Hit(g, v, LineNo(addr)) then Hold(v, g.Index(LineNo(addr)), Lane(addr), w) else v;
      LinesAgree(g, v', flat[WordNo(addr) - g.Base() := w])
  {
    hide g.Index, g.Tag, g.LineAt, g.Base, g.Words, LineNo, WordNo, Lane, WordAt, LineOf;
    var n, i, k := LineNo(addr), g.Index(LineNo(addr)), Lane(addr);
    RamWord(g, addr);
    WordParts(addr);
    WordJoin(n, k);
    var hit := Hit(g, v, n);
    var v' := if hit then Hold(v, i, k, w) else v;
    var flat' := flat[WordNo(addr) - g.Base() := w];
    forall j | 0 <= j < g.lines && v'.valid[j]
      ensures LineAgrees(g, flat', g.LineAt(v'.tags[j], j), v'.data[j])
    {
      var m := g.LineAt(v.tags[j], j);
      assert LineAgrees(g, flat, m, v.data[j]);
      LineSplit(g, n);
      LineJoin(g, v.tags[j], j);
      if m == n {
        assert hit && j == i;
      } else {
        assert forall h: nat | h < 4 :: WordAt(m, h) != WordAt(n, k);
      }
    }
  }

  /** Write-back store hit: only the line and its dirty bit change. */
  lemma DirtyStoreKeeps(g: Geometry, v: Arrays, pending: seq<Store>, mem: seq<Word>, flat: seq<Word>, s: Store)
    requires Coherent(g, true, v, pending, mem, flat)
    requires g.IsRam(s.addr) && Hit(g, v, LineNo(s.addr))
    ensures g.IsRamWord(WordNo(s.addr))
    ensures
      var i, k, a := g.Index(LineNo(s.addr)), Lane(s.addr), WordNo(s.addr) - g.Base();
      var held := Hold(v, i, k, Merge(v.data[i][k], s.wdata, s.wmask));
      Coherent(g, true, held.(dirty := v.dirty[i := true]), pending, mem, flat[a := Merge(flat[a], s.wdata, s.wmask)])
  {
    hide g.Index, g.Tag, g.LineAt, g.Base, g.Words, LineNo, WordNo, Lane, WordAt, LineOf;
    RamWord(g, s.addr);
    WordParts(s.addr);
    WordJoin(LineNo(s.addr), Lane(s.addr));
    var i, k, a := g.Index(LineNo(s.addr)), Lane(s.addr), WordNo(s.addr) - g.Base();
    HitReadsFlat(g, true, v, pending, mem, flat, s.addr);
    StoreKeepsLines(g, v, flat, s.addr, Merge(flat[a], s.wdata, s.wmask));
    var v' := Hold(v, i, k, Merge(v.data[i][k], s.wdata, s.wmask)).(dirty := v.dirty[i := true]);
    var flat' := flat[a := Merge(flat[a], s.wdata, s.wmask)];
    assert LinesAgree(g, v', flat') by {
      var h := Hold(v, i, k, Merge(v.data[i][k], s.wdata, s.wmask));
      forall j | 0 <= j < g.lines && v'.valid[j]
        ensures LineAgrees(g, flat', g.LineAt(v'.tags[j], j), v'.data[j])
      { assert h.valid[j]; }
    }
    forall b: nat | g.IsRamWord(b) && !DirtyCover(g, v', b)
      ensures Overlay(mem[b - g.Base()], pending, b) == flat'[b - g.Base()]
    {
      assert !DirtyCover(g, v, b);
      assert b != WordNo(s.addr);
    }
    forall j | 0 <= j < |pending|
      ensures g.IsRam(pending[j].addr) && !Hit(g, v', LineNo(pending[j].addr))
    { assert !Hit(g, v, LineNo(pending[j].addr)); }
  }

  /** Draining the oldest store into memory does not change what memory will finally hold. */
  lemma {:induction false} DrainOverlay(w: Word, pending: seq<Store>, a: nat)
    requires pending != []
    ensures
      var s := pending[0];
      Overlay(if WordNo(s.addr) == a then Merge(w, s.wdata, s.wmask) else w, pending[1..], a) == Overlay(w, pending, a)
  {
    if |pending| == 1 {
      assert pending[..0] == [];
    } else {
      var shorter := pending[..|pending| - 1];
      DrainOverlay(w, shorter, a);
      assert pending[1..][..|pending[1..]| - 1] == shorter[1..];
    }
  }

  lemma DrainKeeps(g: Geometry, writeBack: bool, v: Arrays, pending: seq<Store>, mem: seq<Word>, flat: seq<Word>)
    requires Coherent(g, writeBack, v, pending, mem, flat)
    requires pending != []
    ensures g.IsRamWord(WordNo(pending[0].addr))
    ensures
      var s := pending[0];
      var a := WordNo(s.addr) - g.Base();
      Coherent(g, writeBack, v, pending[1..], mem[a := Merge(mem[a], s.wdata, s.wmask)], flat)
  {
    hide g.Index, g.Tag, g.LineAt, g.Base, g.Words, LineNo, WordNo, Lane, WordAt, LineOf;
    var s := pending[0];
    assert g.IsRam(s.addr);
    RamWord(g, s.addr);
    var a := WordNo(s.addr) - g.Base();
    var mem' := mem[a := Merge(mem[a], s.wdata, s.wmask)];
    forall b: nat | g.IsRamWord(b) && !DirtyCover(g, v, b)
      ensures Overlay(mem'[b - g.Base()], pending[1..], b) == flat[b - g.Base()]
    {
      DrainOverlay(mem[b - g.Base()], pending, b);
    }
    forall j | 0 <= j < |pending[1..]|
      ensures g.IsRam(pending[1..][j].addr) && (writeBack ==> !Hit(g, v, LineNo(pending[1..][j].addr)))
    { assert pending[1..][j] == pending[j + 1]; }
  }

  /** A completed fill replaces a clean line; nothing is buffered while a fill runs. */
  lemma InstallKeeps(g: Geometry, writeBack: bool, v: Arrays, mem: seq<Word>, flat: seq<Word>, line: nat, words: Line)
    requires Coherent(g, writeBack, v, [], mem, flat)
    requires LineAgrees(g, flat, line, words)
    requires !(v.valid[g.Index(line)] && v.dirty[g.Index(line)])
    ensures
      var i := g.Index(line);
      Coherent(g, writeBack,
               Arrays(v.valid[i := true], v.dirty[i := false], v.tags[i := g.Tag(line)], v.data[i := words]),
               [], mem, flat)
  {
    hide g.Index, g.Tag, g.LineAt, g.Base, g.Words, LineNo, WordNo, Lane, WordAt, LineOf;
    var i := g.Index(line);
    var v' := Arrays(v.valid[i := true], v.dirty[i := false], v.tags[i := g.Tag(line)], v.data[i := words]);
    LineSplit(g, line);
    forall j | 0 <= j < g.lines && v'.valid[j]
      ensures LineAgrees(g, flat, g.LineAt(v'.tags[j], j), v'.data[j])
    {
      if j != i { assert v.valid[j]; }
    }
    forall a: nat | g.IsRamWord(a) && !DirtyCover(g, v', a)
      ensures Overlay(mem[a - g.Base()], [], a) == flat[a - g.Base()]
    {
      assert !DirtyCover(g, v, a);
    }
  }

  /** For a RAM address, hitting its line and covering its word are the same thing. */
  lemma AmoWord(g: Geometry, v: Arrays, addr: nat)
    requires g.Ok() && v.Sized(g) && g.IsRam(addr)
    ensures g.IsRamWord(WordNo(addr)) && LineOf(WordNo(addr)) == LineNo(addr)
    ensures DirtyCover(g, v, WordNo(addr)) <==> Hit(g, v, LineNo(addr)) && v.dirty[g.Index(LineNo(addr))]
  {
    hide g.Index, g.Tag;
    RamWord(g, addr);
  }

  /** Writing one word of a dirty line back to memory. */
  lemma WriteWordKeeps(g: Geometry, v: Arrays, mem: seq<Word>, flat: seq<Word>, i: nat, k: nat)
    requires Coherent(g, true, v, [], mem, flat)
    requires i < g.lines && k < 4 && v.valid[i] && v.dirty[i]
    ensures
      var a := WordAt(g.LineAt(v.tags[i], i), k);
      g.IsRamWord(a) && Coherent(g, true, v, [], mem[a - g.Base() := v.data[i][k]], flat)
  {
    hide g.Index, g.Tag, g.LineAt, g.Base, g.Words, LineNo, WordNo, Lane, WordAt, LineOf;
    var n := g.LineAt(v.tags[i], i);
    assert LineAgrees(g, flat, n, v.data[i]);
    LineJoin(g, v.tags[i], i);
    WordJoin(n, k);
    var a := WordAt(n, k);
    assert DirtyCover(g, v, a);
    var mem' := mem[a - g.Base() := v.data[i][k]];
    forall b: nat | g.IsRamWord(b) && !DirtyCover(g, v, b)
      ensures Overlay(mem'[b - g.Base()], [], b) == flat[b - g.Base()]
    {
      assert b != a;
    }
  }

  /** The words below `upTo` of the line at index `i` are already in memory. */
  ghost predicate WrittenBack(g: Geometry, v: Arrays, mem: seq<Word>, i: nat, upTo: nat)
    requires v.Sized(g) && i < g.lines && upTo <= 4
  {
    forall k | 0 <= k < upTo ::
      var a := WordAt(g.LineAt(v.tags[i], i), k);
      g.Base() <= a < g.Base() + |mem| && mem[a - g.Base()] == v.data[i][k]
  }

  lemma WordWritten(g: Geometry, v: Arrays, mem: seq<Word>, i: nat, k: nat)
    requires g.Ok() && v.Sized(g) && i < g.lines && k < 4 && |mem| == g.Words()
    requires WrittenBack(g, v, mem, i, k)
    requires g.IsRamWord(WordAt(g.LineAt(v.tags[i], i), k))
    ensures WrittenBack(g, v, mem[WordAt(g.LineAt(v.tags[i], i), k) - g.Base() := v.data[i][k]], i, k + 1)
  {
    hide g.LineAt, g.Base, g.Words;
  }

  lemma WrittenLess(g: Geometry, v: Arrays, mem: seq<Word>, i: nat, upTo: nat, less: nat)
    requires g.Ok() && v.Sized(g) && i < g.lines && less <= upTo <= 4
    requires WrittenBack(g, v, mem, i, upTo)
    ensures WrittenBack(g, v, mem, i, less)
  {
  }

  /** A line whose four words are all in memory may be marked clean, and then dropped. */
  lemma CleanKeeps(g: Geometry, v: Arrays, mem: seq<Word>, flat: seq<Word>, i: nat, keepValid: bool)
    requires Coherent(g, true, v, [], mem, flat)
    requires i < g.lines && v.valid[i]
    requires WrittenBack(g, v, mem, i, 4)
    ensures Coherent(g, true, v.(dirty := v.dirty[i := false], valid := v.valid[i := keepValid]), [], mem, flat)
  {
    hide g.Index, g.Tag, g.LineAt, g.Base, g.Words, LineNo, WordNo, Lane, WordAt, LineOf;
    var n := g.LineAt(v.tags[i], i);
    assert LineAgrees(g, flat, n, v.data[i]);
    var v' := v.(dirty := v.dirty[i := false], valid := v.valid[i := keepValid]);
    forall b: nat | g.IsRamWord(b) && !DirtyCover(g, v', b)
      ensures Overlay(mem[b - g.Base()], [], b) == flat[b - g.Base()]
    {
      if DirtyCover(g, v, b) {
        LineSplit(g, LineOf(b));
        assert g.Index(LineOf(b)) == i;
        WordSplit(b);
      }
    }
    forall j | 0 <= j < g.lines && v'.valid[j]
      ensures LineAgrees(g, flat, g.LineAt(v'.tags[j], j), v'.data[j])
    { assert v.valid[j]; }
  }

  /** Dropping lines that are not dirty loses nothing. */
  lemma DropKeeps(g: Geometry, writeBack: bool, v: Arrays, pending: seq<Store>, mem: seq<Word>, flat: seq<Word>, v': Arrays)
    requires Coherent(g, writeBack, v, pending, mem, flat)
    requires v'.Sized(g) && v'.tags == v.tags && v'.data == v.data
    requires forall i | 0 <= i < g.lines ::
               (v'.valid[i] == v.valid[i] && v'.dirty[i] == v.dirty[i])
               || (!v'.valid[i] && !v'.dirty[i] && !(v.valid[i] && v.dirty[i]))
    ensures Coherent(g, writeBack, v', pending, mem, flat)
  {
    hide g.Index, g.Tag, g.LineAt, g.Base, g.Words, LineNo, WordNo, Lane, WordAt, LineOf;
    forall j | 0 <= j < g.lines && v'.valid[j]
      ensures LineAgrees(g, flat, g.LineAt(v'.tags[j], j), v'.data[j])
    { assert v.valid[j]; }
    forall b: nat | g.IsRamWord(b) && !DirtyCover(g, v', b)
      ensures Overlay(mem[b - g.Base()], pending, b) == flat[b - g.Base()]
    { assert !DirtyCover(g, v, b); }
    forall j | 0 <= j < |pending|
      ensures g.IsRam(pending[j].addr) && (writeBack ==> !Hit(g, v', LineNo(pending[j].addr)))
    { assert writeBack ==> !Hit(g, v, LineNo(pending[j].addr)); }
  }

  /** An atomic on a word no line holds changes memory and flat memory alike. */
  lemma AtomicKeeps(g: Geometry, writeBack: bool, v: Arrays, mem: seq<Word>, flat: seq<Word>, a: nat, w: Word)
    requires Coherent(g, writeBack, v, [], mem, flat)
    requires g.IsRamWord(a) && !Hit(g, v, LineOf(a))
    ensures Coherent(g, writeBack, v, [], mem[a - g.Base() := w], flat[a - g.Base() := w])
  {
    hide g.Index, g.Tag, g.LineAt, g.Base, g.Words, LineNo, WordNo, Lane, WordAt, LineOf;
    var mem', flat' := mem[a - g.Base() := w], flat[a - g.Base() := w];
    forall j | 0 <= j < g.lines && v.valid[j]
      ensures LineAgrees(g, flat', g.LineAt(v.tags[j], j), v.data[j])
    {
      var n := g.LineAt(v.tags[j], j);
      assert LineAgrees(g, flat, n, v.data[j]);
      LineJoin(g, v.tags[j], j);
      assert n != LineOf(a);
      forall h: nat | h < 4 ensures WordAt(n, h) != a { WordJoin(n, h); }
    }
    forall b: nat | g.IsRamWord(b) && !DirtyCover(g, v, b)
      ensures Overlay(mem'[b - g.Base()], [], b) == flat'[b - g.Base()]
    { assert Overlay(mem[b - g.Base()], [], b) == flat[b - g.Base()]; }
  }

  /** An atomic that reaches memory while a dirty line hides the word changes nothing visible. */
  lemma HiddenAtomicKeeps(g: Geometry, v: Arrays, mem: seq<Word>, flat: seq<Word>, a: nat, w: Word)
    requires Coherent(g, true, v, [], mem, flat)
    requires g.IsRamWord(a) && DirtyCover(g, v, a)
    ensures Coherent(g, true, v, [], mem[a - g.Base() := w], flat)
  {
    hide g.Index, g.Tag, g.LineAt, g.Base, g.Words, LineNo, WordNo, Lane, WordAt, LineOf;
    var mem' := mem[a - g.Base() := w];
    forall b: nat | g.IsRamWord(b) && !DirtyCover(g, v, b)
      ensures Overlay(mem'[b - g.Base()], [], b) == flat[b - g.Base()]
    { assert Overlay(mem[b - g.Base()], [], b) == flat[b - g.Base()]; }
  }

  /** A word of memory that changes behind the cache leaves a flat memory in front of it exactly if its line is not
      held clean. */
  lemma ChangedUnheard(g: Geometry, writeBack: bool, v: Arrays, mem: seq<Word>, mem': seq<Word>, flat: seq<Word>, a: nat)
    requires Coherent(g, writeBack, v, [], mem, flat) && g.IsRamWord(a)
    requires |mem'| == |mem| && mem' == mem[a - g.Base() := mem'[a - g.Base()]] != mem
    ensures (exists flat' :: Coherent(g, writeBack, v, [], mem', flat')) <==> !Hit(g, v, LineOf(a)) || DirtyCover(g, v, a)
  {
    hide g.Index, g.Tag, g.LineAt, g.Base, g.Words, LineNo, WordNo, Lane, WordAt, LineOf, LinesAgree, MemoryAgrees,
      BufferOk;
    var w := mem'[a - g.Base()];
    if DirtyCover(g, v, a) {
      HiddenAtomicKeeps(g, v, mem, flat, a, w);
    } else if !Hit(g, v, LineOf(a)) {
      AtomicKeeps(g, writeBack, v, mem, flat, a, w);
    } else {
      CleanReads(g, writeBack, v, mem, flat, a);
      forall flat' | Coherent(g, writeBack, v, [], mem', flat') ensures false {
        CleanReads(g, writeBack, v, mem', flat', a);
      }
    }
  }

  /** A line held clean holds the words of memory. */
  lemma CleanReads(g: Geometry, writeBack: bool, v: Arrays, mem: seq<Word>, flat: seq<Word>, a: nat)
    requires Coherent(g, writeBack, v, [], mem, flat) && g.IsRamWord(a) && Hit(g, v, LineOf(a)) && !DirtyCover(g, v, a)
    ensures v.data[g.Index(LineOf(a))][Lane(8 * a)] == mem[a - g.Base()]
  {
    hide g.Index, g.Tag, g.LineAt, g.Base, g.Words, LinesAgree, MemoryAgrees, BufferOk;
    assert LineNo(8 * a) == LineOf(a) && WordNo(8 * a) == a;
    MemoryReadsFlat(g, writeBack, v, mem, flat, a);
    HitReadsFlat(g, writeBack, v, [], mem, flat, 8 * a);
  }

  /** With nothing buffered and no dirty line, memory is the flat memory. */
  lemma CleanMeansFlat(g: Geometry, writeBack: bool, v: Arrays, mem: seq<Word>, flat: seq<Word>)
    requires Coherent(g, writeBack, v, [], mem, flat)
    requires forall i | 0 <= i < g.lines :: !(v.valid[i] && v.dirty[i])
    ensures mem == flat
  {
    hide g.Index, g.Tag, g.LineAt, g.Base, g.Words, LineNo, WordNo, Lane, WordAt, LineOf;
    forall x | 0 <= x < g.Words() ensures mem[x] == flat[x] {
      MemoryReadsFlat(g, writeBack, v, mem, flat, x + g.Base());
    }
  }
}
