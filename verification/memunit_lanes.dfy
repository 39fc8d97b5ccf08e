/** Byte-addressed accesses made of one or two masked word transfers. */
module ByteLanes {
  import opened Bytes
  import AtomicMemory

  type Mem = AtomicMemory.Mem

  function ByteAt(m: Mem, x: nat): Byte { m[x / 8][x % 8] }

  // ---- what an access means ----

  /** Memory with `size` bytes at `addr` replaced by the low bytes of `data`, and nothing else changed. */
  ghost function Stored(m: Mem, addr: nat, size: nat, data: Word): Mem
    requires size <= 8
  {
    imap k: nat :: seq(8, i requires 0 <= i < 8 => if addr <= 8 * k + i < addr + size then data[8 * k + i - addr] else m[k][i])
  }

  function Loaded(m: Mem, addr: nat, size: nat): (b: seq<Byte>)
    ensures |b| == size
  {
    seq<Byte>(size, i requires 0 <= i < size => ByteAt(m, addr + i))
  }

  /** Sign or zero extension to a word. */
  function Extended(b: seq<Byte>, unsigned: bool): Word
    requires 0 < |b| <= 8
  {
    var fill: Byte := if !unsigned && 128 <= b[|b| - 1] then 255 else 0;
    b + seq(8 - |b|, i => fill)
  }

  // ---- how the unit does it ----

  function ByteMask(bytes: nat): Mask { seq(8, i => i < bytes) }

  /** Left shift of strobes or bytes by whole lanes, dropping what leaves the word. */
  function MaskShifted(m: Mask, offset: nat): Mask { seq(8, i => if offset <= i < 8 then m[i - offset] else false) }

  function DataShifted(w: Word, offset: nat): Word { seq(8, i => if offset <= i < 8 then w[i - offset] else 0) }

  predicate Crosses(addr: nat, size: nat) { addr % 8 + size > 8 }

  function FirstMask(addr: nat, size: nat): Mask {
    MaskShifted(ByteMask(if Crosses(addr, size) then 8 - addr % 8 else size), addr % 8)
  }

  /** `split_store_second_wdata`: right shift by the bytes the first word took. */
  function SecondData(w: Word, offset: nat): Word
    requires 0 < offset < 8
  {
    seq(8, i => if 0 <= i < offset then w[i + 8 - offset] else 0)
  }

  function SecondMask(offset: nat, size: nat): Mask
    requires offset + size > 8
  {
    ByteMask(size - (8 - offset))
  }

  /** `extract_load_data`: shift two words down by the offset, keep the low bytes, extend. */
  function ExtractLoadData(second: Word, first: Word, offset: nat, funct3: nat): Word
    requires offset < 8
  {
    var both: seq<Byte> := first + second;
    var shifted := both[offset..];
    match funct3 % 4
    case 0 => Extended(shifted[..1], funct3 / 4 % 2 == 1)
    case 1 => Extended(shifted[..2], funct3 / 4 % 2 == 1)
    case 2 => Extended(shifted[..4], funct3 / 4 % 2 == 1)
    case _ => shifted[..8]
  }

  // ---- one or two transfers ----

  ghost function FirstWrite(m: Mem, addr: nat, size: nat, data: Word): Mem {
    m[addr / 8 := Merge(m[addr / 8], DataShifted(data, addr % 8), FirstMask(addr, size))]
  }

  ghost function SecondWrite(m: Mem, addr: nat, size: nat, data: Word): Mem
    requires Crosses(addr, size) && size <= 8
  {
    m[addr / 8 + 1 := Merge(m[addr / 8 + 1], SecondData(data, addr % 8), SecondMask(addr % 8, size))]
  }

  /** The word writes of a store change exactly its bytes. */
  lemma StoreIsExact(m: Mem, addr: nat, size: nat, data: Word)
    requires 0 < size <= 8
    ensures !Crosses(addr, size) ==> FirstWrite(m, addr, size, data) == Stored(m, addr, size, data)
    ensures Crosses(addr, size) ==> SecondWrite(FirstWrite(m, addr, size, data), addr, size, data) == Stored(m, addr, size, data)
  {
    var m1, want := FirstWrite(m, addr, size, data), Stored(m, addr, size, data);
    var m2 := if Crosses(addr, size) then SecondWrite(m1, addr, size, data) else m1;
    forall k: nat
      ensures m2[k] == want[k]
    {
      LaneIsExact(m, addr, size, data, k, m2);
    }
  }

  lemma LaneIsExact(m: Mem, addr: nat, size: nat, data: Word, k: nat, m2: Mem)
    requires 0 < size <= 8
    requires m2 == if Crosses(addr, size) then SecondWrite(FirstWrite(m, addr, size, data), addr, size, data)
                   else FirstWrite(m, addr, size, data)
    ensures m2[k] == Stored(m, addr, size, data)[k]
  {
    hide MaskShifted, DataShifted, SecondData, FirstMask, SecondMask, Stored, Merge;
    var q, o := addr / 8, addr % 8;
    assert addr == 8 * q + o;
    if k == q {
      assert m2[k] == Merge(m[k], DataShifted(data, o), FirstMask(addr, size));
      FirstLanes(m[k], addr, size, data, q, o);
      LaneStored(m, addr, size, data, k, o, m2[k]);
    } else if k == q + 1 && Crosses(addr, size) {
      assert m2[k] == Merge(m[k], SecondData(data, o), SecondMask(o, size));
      SecondLanes(m[k], size, data, o);
      LaneStored(m, addr, size, data, k, o - 8, m2[k]);
    } else {
      assert m2[k] == m[k];
      LaneStored(m, addr, size, data, k, addr - 8 * k, m2[k]);
    }
  }

  /** A word with the right bytes, counted from where the access starts relative to the word, is the stored one. */
  lemma LaneStored(m: Mem, addr: nat, size: nat, data: Word, k: nat, from: int, w: Word)
    requires size <= 8 && addr == 8 * k + from
    requires forall i :: 0 <= i < 8 ==> w[i] == if from <= i < from + size then data[i - from] else m[k][i]
    ensures w == Stored(m, addr, size, data)[k]
  {
  }

  lemma FirstLanes(w: Word, addr: nat, size: nat, data: Word, q: nat, o: nat)
    requires 0 < size <= 8 && o < 8 && addr == 8 * q + o
    ensures var n := Merge(w, DataShifted(data, addr % 8), FirstMask(addr, size));
      forall i :: 0 <= i < 8 ==> n[i] == if o <= i < o + size then data[i - o] else w[i]
  {
    assert addr % 8 == o;
  }

  lemma SecondLanes(w: Word, size: nat, data: Word, o: nat)
    requires 0 < size <= 8 && o < 8 && o + size > 8
    ensures var n := Merge(w, SecondData(data, o), SecondMask(o, size));
      forall i :: 0 <= i < 8 ==> n[i] == if i + 8 < o + size then data[i + 8 - o] else w[i]
  {
  }

  /** The extracted value is made of exactly the bytes of the access, from one word or two. */
  lemma LoadIsExact(m: Mem, addr: nat, funct3: nat)
    ensures var size := AccessSize(funct3);
      && ExtractLoadData(m[addr / 8 + 1], m[addr / 8], addr % 8, funct3) == LoadValue(m, addr, funct3)
      && (!Crosses(addr, size) ==>
            ExtractLoadData(ZERO_WORD, m[addr / 8], addr % 8, funct3) == LoadValue(m, addr, funct3))
  {
    hide Extended;
    var size, q, o := AccessSize(funct3), addr / 8, addr % 8;
    var w0: seq<Byte>, w1: seq<Byte>, z: seq<Byte> := m[q], m[q + 1], ZERO_WORD;
    var b2, b1 := w0 + w1, w0 + z;
    var both, one := b2[o..], b1[o..];
    assert addr == 8 * q + o;
    forall i | 0 <= i < size
      ensures both[i] == ByteAt(m, addr + i)
      ensures !Crosses(addr, size) ==> one[i] == ByteAt(m, addr + i)
    {
      if o + i < 8 {
        assert (addr + i) / 8 == q && (addr + i) % 8 == o + i;
      } else {
        assert (addr + i) / 8 == q + 1 && (addr + i) % 8 == o + i - 8;
      }
    }
    assert both[..size] == Loaded(m, addr, size);
    assert !Crosses(addr, size) ==> one[..size] == Loaded(m, addr, size);
    ExtendedWhole(Loaded(m, addr, size), funct3 / 4 % 2 == 1);
  }

  lemma ExtendedWhole(b: seq<Byte>, unsigned: bool)
    requires 0 < |b| <= 8
    ensures |b| == 8 ==> Extended(b, unsigned) == b
  {
  }

  /** What a load instruction returns. */
  function LoadValue(m: Mem, addr: nat, funct3: nat): Word {
    Extended(Loaded(m, addr, AccessSize(funct3)), funct3 / 4 % 2 == 1)
  }

  /** One byte of memory after a store. */
  lemma StoredByte(m: Mem, addr: nat, size: nat, data: Word, x: nat)
    requires size <= 8
    ensures ByteAt(Stored(m, addr, size, data), x) == if addr <= x < addr + size then data[x - addr] else ByteAt(m, x)
  {
    assert 8 * (x / 8) + x % 8 == x;
  }

  /** A load of what was stored gives the low bytes of the stored register, extended. */
  lemma LoadAfterStore(m: Mem, addr: nat, funct3: nat, data: Word)
    ensures var size := AccessSize(funct3);
            LoadValue(Stored(m, addr, size, data), addr, funct3) == Extended(data[..size], funct3 / 4 % 2 == 1)
  {
    hide ByteAt, Stored, Extended, AccessSize;
    var size := AccessSize(funct3);
    var got, want := Loaded(Stored(m, addr, size, data), addr, size), data[..size];
    forall i | 0 <= i < size
      ensures got[i] == want[i]
    {
      StoredByte(m, addr, size, data, addr + i);
    }
    assert got == want;
  }

  /** A load of bytes no store touched is unchanged. */
  lemma LoadBesideStore(m: Mem, addr: nat, size: nat, data: Word, other: nat, funct3: nat)
    requires size <= 8 && (other + AccessSize(funct3) <= addr || addr + size <= other)
    ensures LoadValue(Stored(m, addr, size, data), other, funct3) == LoadValue(m, other, funct3)
  {
    hide ByteAt, Stored, Extended, AccessSize;
    var n := AccessSize(funct3);
    var got, want := Loaded(Stored(m, addr, size, data), other, n), Loaded(m, other, n);
    forall i | 0 <= i < n
      ensures got[i] == want[i]
    {
      StoredByte(m, addr, size, data, other + i);
    }
    assert got == want;
  }
}
