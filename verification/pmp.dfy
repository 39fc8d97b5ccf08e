/** Physical memory protection: Privileged Architecture 20211203, section 3.7.1. */
module Protection {
  import opened Eei
  import opened Powers
  import opened Quotients

  const XLEN: nat := 64

  /** The address registers hold 54 bits. */
  const ADDR_MASK: nat := 0x3F_FFFF_FFFF_FFFF

  datatype Mode = OFF | TOR | NA4 | NAPOT

  datatype Entry = Entry(mode: Mode, r: bool, w: bool, x: bool, addr: nat)

  predicate Allowed(e: Entry, kind: AccessType) { match kind case Read => e.r case Write => e.w case Exec => e.x }

  // ---- the byte sets ----

  predicate Within(b: nat, from: nat, to: nat) { from <= b < to }

  function TrailingOnes(x: nat): nat { if x % 2 == 1 then 1 + TrailingOnes(x / 2) else 0 }

  /** Bytes in a NAPOT block: the aligned block of 2^(ones+3) bytes around 4 * addr; all bytes for an all-ones address. */
  predicate InNapot(addr: nat, b: nat) {
    addr == ADDR_MASK || var size := Pow2(TrailingOnes(addr) + 3); b / size == 4 * addr / size
  }

  /** Does entry i match byte b? TOR covers [previous address, own address), NA4 the four bytes at the address. */
  predicate Covers(es: seq<Entry>, i: nat, b: nat)
    requires i < |es|
  {
    match es[i].mode
    case TOR => Within(b, if i == 0 then 0 else 4 * es[i - 1].addr, 4 * es[i].addr)
    case NAPOT => InNapot(es[i].addr, b)
    case NA4 => Within(b, 4 * es[i].addr, 4 * es[i].addr + 4)
    case OFF => false
  }

  ghost predicate Meets(es: seq<Entry>, i: nat, start: nat, size: nat)
    requires i < |es|
  {
    exists b: nat :: Within(b, start, start + size) && Covers(es, i, b)
  }

  ghost predicate CoversAll(es: seq<Entry>, i: nat, start: nat, size: nat)
    requires i < |es|
  {
    forall b: nat :: Within(b, start, start + size) ==> Covers(es, i, b)
  }

  /** The lowest entry that meets the access, from i on. */
  ghost function Deciding(es: seq<Entry>, i: nat, start: nat, size: nat): (k: nat)
    requires i <= |es|
    ensures i <= k <= |es|
    ensures forall j :: i <= j < k ==> !Meets(es, j, start, size)
    ensures k < |es| ==> Meets(es, k, start, size)
    decreases |es| - i
  {
    if i == |es| || Meets(es, i, start, size) then i else Deciding(es, i + 1, start, size)
  }

  /** M mode may do anything; otherwise the deciding entry must cover the whole access and grant it. */
  ghost predicate Permitted(es: seq<Entry>, priv: PrivMode, start: nat, size: nat, kind: AccessType) {
    priv == M ||
    var k := Deciding(es, 0, start, size);
    k < |es| && CoversAll(es, k, start, size) && Allowed(es[k], kind)
  }

  // ---- the checker ----

  /** The checker has no NA4: such an entry is off. */
  function WithoutNa4(es: seq<Entry>): (s: seq<Entry>)
    ensures |s| == |es|
  {
    seq(|es|, i requires 0 <= i < |es| => if es[i].mode == NA4 then es[i].(mode := OFF) else es[i])
  }

  /** An NA4 entry that grants four bytes is ignored, and the access it should allow is refused. */
  lemma Na4Ignored()
    ensures var es := [Entry(NA4, true, false, false, 1)];
      Permitted(es, S, 4, 4, Read) && !Permitted(WithoutNa4(es), S, 4, 4, Read)
  {
    var es := [Entry(NA4, true, false, false, 1)];
    assert Within(4, 4, 4 + 4) && Covers(es, 0, 4);
    assert Meets(es, 0, 4, 4);
    assert Deciding(es, 0, 4, 4) == 0;
    assert CoversAll(es, 0, 4, 4);
    assert WithoutNa4(es)[0].mode == OFF;
    assert !Meets(WithoutNa4(es), 0, 4, 4);
  }

  /** An NA4 entry that grants nothing is ignored too, and a later entry opens what it should close. */
  lemma Na4Opens()
    ensures var es := [Entry(NA4, false, false, false, 1), Entry(TOR, true, true, true, 1000)];
      !Permitted(es, S, 4, 4, Read) && Permitted(WithoutNa4(es), S, 4, 4, Read)
  {
    var es := [Entry(NA4, false, false, false, 1), Entry(TOR, true, true, true, 1000)];
    var s := WithoutNa4(es);
    assert Within(4, 4, 8) && Covers(es, 0, 4);
    assert !Meets(s, 0, 4, 4);
    assert Covers(s, 1, 4) && Meets(s, 1, 4, 4);
    assert Deciding(s, 1, 4, 4) == 1 && Deciding(s, 0, 4, 4) == 1;
    assert CoversAll(s, 1, 4, 4);
  }

  predicate RangeOverlaps(start: nat, size: nat, from: nat, to: nat) {
    if size == 0 || from >= to then false
    else if start >= from then start < to
    else size > from - start
  }

  predicate RangeContains(start: nat, size: nat, from: nat, to: nat) {
    if size == 0 || from >= to then false
    else start >= from && start < to && size <= to - start
  }

  lemma RangesRight(start: nat, size: nat, from: nat, to: nat)
    ensures RangeOverlaps(start, size, from, to) <==> exists b: nat :: Within(b, start, start + size) && Within(b, from, to)
    ensures 0 < size ==> (RangeContains(start, size, from, to) <==> forall b: nat :: Within(b, start, start + size) ==> Within(b, from, to))
  {
    if RangeOverlaps(start, size, from, to) {
      var b := if start >= from then start else from;
      assert Within(b, start, start + size) && Within(b, from, to);
    }
    if 0 < size && forall b: nat :: Within(b, start, start + size) ==> Within(b, from, to) {
      var last := start + size - 1;
      assert Within(start, start, start + size) && Within(last, start, start + size);
      assert Within(start, from, to) && Within(last, from, to);
    }
  }

  /** The first zero bit is where the trailing ones end. */
  lemma {:induction false} OnesEnd(x: nat, z: nat)
    requires (forall j: nat :: j < z ==> Bit(x, j)) && !Bit(x, z)
    ensures TrailingOnes(x) == z
  {
    if z == 0 {
      assert ShiftRight(x, 0) == x;
    } else {
      assert ShiftRight(x, 0) == x;
      assert Bit(x, 0);
      forall j: nat | j < z - 1
        ensures Bit(x / 2, j)
      {
        ShiftHalf(x, j);
        assert Bit(x, j + 1);
      }
      ShiftHalf(x, z - 1);
      OnesEnd(x / 2, z - 1);
    }
  }

  lemma {:induction false} ShiftHalf(x: nat, n: nat)
    ensures ShiftRight(x / 2, n) == ShiftRight(x, n + 1)
  {
    if n == 0 {
      assert ShiftRight(x, 1) == ShiftRight(x, 0) / 2;
    } else {
      ShiftHalf(x, n - 1);
    }
  }

  /** An address of at most 54 bits has a zero bit at or below bit 54, and below it unless it is all ones. */
  lemma {:induction false} OnesOnly(x: nat, n: nat)
    requires forall j: nat :: j < n ==> Bit(x, j)
    ensures x >= Pow2(n) - 1
  {
    if n != 0 {
      assert ShiftRight(x, 0) == x && Bit(x, 0);
      forall j: nat | j < n - 1
        ensures Bit(x / 2, j)
      {
        ShiftHalf(x, j);
        assert Bit(x, j + 1);
      }
      OnesOnly(x / 2, n - 1);
    }
  }

  /** A byte is in the aligned block around a byte exactly when it lies between the block's ends. */
  lemma BlockIsRange(n: nat, size: nat, b: nat)
    requires 0 < size
    ensures n - n % size >= 0
    ensures b / size == n / size <==> Within(b, n - n % size, n - n % size + size)
  {
    var q, r := n / size, n % size;
    var base := q * size;
    assert n == base + r;
    if Within(b, base, base + size) {
      QuotientUnique(size, b, q, b - base);
    }
    if b / size == q {
      var t := b % size;
      assert b == b / size * size + t;
    }
  }

  /** Mode NAPOT: find the first zero bit, then compare with the block it names. */
  method NapotCheck(start: nat, size: nat, addr: nat) returns (overlaps: bool, contains: bool)
    requires addr <= ADDR_MASK
    ensures overlaps <==> NapotMeets(addr, start, size)
    ensures 0 < size ==> (contains <==> NapotHolds(addr, start, size))
  {
    hide TrailingOnes, ShiftRight, Pow2;
    var foundZero, zeroBit := false, 0;
    var bit := 0;
    while bit < XLEN && !foundZero
      invariant bit <= XLEN
      invariant foundZero ==> zeroBit < bit && !Bit(addr, zeroBit) && forall j: nat :: j < zeroBit ==> Bit(addr, j)
      invariant !foundZero ==> forall j: nat :: j < bit ==> Bit(addr, j)
    {
      if !Bit(addr, bit) {
        foundZero, zeroBit := true, bit;
      }
      bit := bit + 1;
    }
    if size == 0 {
      overlaps, contains := false, false;
    } else if addr == ADDR_MASK {
      overlaps, contains := true, true;
      assert Within(start, start, start + size) && InNapot(addr, start);
    } else {
      ZeroBelow(addr, bit, foundZero, zeroBit);
      OnesEnd(addr, zeroBit);
      var regionSize := Pow2(zeroBit + 3);
      BlockIsRange(4 * addr, regionSize, start);
      var regionStart := 4 * addr - 4 * addr % regionSize;
      if start >= regionStart {
        overlaps := start - regionStart < regionSize;
        contains := overlaps && size <= regionSize - (start - regionStart);
      } else {
        overlaps := size > regionStart - start;
        contains := false;
      }
      NapotIsRange(addr, zeroBit, start, size);
    }
  }

  /** So meeting or holding the block is meeting or holding the range the checker computes. */
  lemma NapotIsRange(addr: nat, zeroBit: nat, start: nat, size: nat)
    requires addr != ADDR_MASK && TrailingOnes(addr) == zeroBit && 0 < size
    ensures var block := Pow2(zeroBit + 3);
      var from := 4 * addr - 4 * addr % block;
      && 0 <= from
      && (RangeOverlaps(start, size, from, from + block) <==> NapotMeets(addr, start, size))
      && (RangeContains(start, size, from, from + block) <==> NapotHolds(addr, start, size))
  {
    hide TrailingOnes, Pow2, NapotMeets, NapotHolds, RangeOverlaps, RangeContains, Within;
    var block := Pow2(zeroBit + 3);
    BlockIsRange(4 * addr, block, start);
    var from: nat := 4 * addr - 4 * addr % block;
    forall b: nat
      ensures InNapot(addr, b) <==> Within(b, from, from + block)
    {
      BlockIsRange(4 * addr, block, b);
    }
    SameBytes(addr, from, from + block, start, size);
  }

  lemma SameBytes(addr: nat, from: nat, to: nat, start: nat, size: nat)
    requires 0 < size && forall b: nat :: InNapot(addr, b) <==> Within(b, from, to)
    ensures RangeOverlaps(start, size, from, to) <==> NapotMeets(addr, start, size)
    ensures RangeContains(start, size, from, to) <==> NapotHolds(addr, start, size)
  {
    RangesRight(start, size, from, to);
    hide InNapot, Within, RangeOverlaps, RangeContains;
  }

  ghost predicate NapotMeets(addr: nat, start: nat, size: nat) {
    exists b: nat :: Within(b, start, start + size) && InNapot(addr, b)
  }

  ghost predicate NapotHolds(addr: nat, start: nat, size: nat) {
    forall b: nat :: Within(b, start, start + size) ==> InNapot(addr, b)
  }

  /** Below the all-ones address the search finds a zero early enough for a block of less than 2^64 bytes. */
  lemma ZeroBelow(addr: nat, bit: nat, foundZero: bool, zeroBit: nat)
    requires addr < ADDR_MASK && bit <= XLEN && (foundZero || bit == XLEN)
    requires if foundZero then zeroBit < bit && forall j: nat :: j < zeroBit ==> Bit(addr, j)
             else forall j: nat :: j < bit ==> Bit(addr, j)
    ensures foundZero && zeroBit + 3 < XLEN
  {
    Pow54();
    if !foundZero || zeroBit >= 54 {
      OnesOnly(addr, 54);
    }
  }

  lemma Pow54()
    ensures Pow2(54) == ADDR_MASK + 1
  {
    assert Pow2(9) == 512;
    Pow2Add(9, 9);
    Pow2Add(18, 9);
    Pow2Add(27, 27);
  }

  /** The entry that decides is an NA4 entry, which the checker passes over. */
  ghost predicate Na4Decides(es: seq<Entry>, start: nat, size: nat) {
    var k := Deciding(es, 0, start, size);
    k < |es| && es[k].mode == NA4
  }

  /** Otherwise leaving the NA4 entries out changes nothing. */
  lemma SameWithoutNa4(es: seq<Entry>, priv: PrivMode, start: nat, size: nat, kind: AccessType)
    requires !Na4Decides(es, start, size)
    ensures Permitted(WithoutNa4(es), priv, start, size, kind) <==> Permitted(es, priv, start, size, kind)
  {
    var s := WithoutNa4(es);
    var k, k' := Deciding(es, 0, start, size), Deciding(s, 0, start, size);
    forall i, b: nat | 0 <= i < |es|
      ensures Covers(s, i, b) <==> es[i].mode != NA4 && Covers(es, i, b)
    {
    }
    if k < |es| { SameEntry(es, k, start, size); }
    if k' < |es| { SameEntry(es, k', start, size); }
  }

  /** The first entry from i on that the checker knows and that meets the access. */
  ghost function NextKnown(es: seq<Entry>, i: nat, start: nat, size: nat): (k: nat)
    requires i <= |es|
    ensures i <= k <= |es|
    ensures forall j :: i <= j < k ==> es[j].mode == NA4 || !Meets(es, j, start, size)
    ensures k < |es| ==> es[k].mode != NA4 && Meets(es, k, start, size)
    decreases |es| - i
  {
    if i == |es| || (es[i].mode != NA4 && Meets(es, i, start, size)) then i else NextKnown(es, i + 1, start, size)
  }

  /** What entry k says of the access; beyond the last entry the answer is no. */
  ghost predicate Verdict(es: seq<Entry>, k: nat, start: nat, size: nat, kind: AccessType) {
    k < |es| && CoversAll(es, k, start, size) && Allowed(es[k], kind)
  }

  /** Passing over NA4 entries leaves the decision to the first other entry that meets the access. */
  lemma PassedOver(es: seq<Entry>, start: nat, size: nat)
    ensures Deciding(WithoutNa4(es), 0, start, size) == NextKnown(es, 0, start, size)
  {
    hide Meets, WithoutNa4;
    var s := WithoutNa4(es);
    forall i | 0 <= i < |es|
      ensures Meets(s, i, start, size) <==> es[i].mode != NA4 && Meets(es, i, start, size)
    {
      SameEntry(es, i, start, size);
    }
    assert |s| == |es|;
  }

  /** The checker's answer is right exactly if no NA4 entry decides, or the entry that decides in its place says
      the same. */
  lemma RightUnlessPassedOver(es: seq<Entry>, priv: PrivMode, start: nat, size: nat, kind: AccessType)
    ensures (Permitted(WithoutNa4(es), priv, start, size, kind) <==> Permitted(es, priv, start, size, kind))
      <==> priv == M || !Na4Decides(es, start, size)
           || (Verdict(es, Deciding(es, 0, start, size), start, size, kind)
               <==> Verdict(es, NextKnown(es, Deciding(es, 0, start, size), start, size), start, size, kind))
  {
    hide Meets, CoversAll, WithoutNa4, NextKnown, Deciding;
    if !Na4Decides(es, start, size) { SameWithoutNa4(es, priv, start, size, kind); }
    var k, n := Deciding(es, 0, start, size), NextKnown(es, 0, start, size);
    PassedOver(es, start, size);
    assert n == NextKnown(es, k, start, size) by { SkipTo(es, 0, k, start, size); }
    if n < |es| { SameEntry(es, n, start, size); }
    assert |WithoutNa4(es)| == |es|;
  }

  /** Entries that do not meet the access are skipped. */
  lemma {:induction false} SkipTo(es: seq<Entry>, i: nat, k: nat, start: nat, size: nat)
    requires i <= k <= |es| && forall j :: i <= j < k ==> !Meets(es, j, start, size)
    ensures NextKnown(es, i, start, size) == NextKnown(es, k, start, size)
    decreases k - i
  {
    if i < k { SkipTo(es, i + 1, k, start, size); }
  }

  lemma SameEntry(es: seq<Entry>, i: nat, start: nat, size: nat)
    requires i < |es|
    ensures Meets(WithoutNa4(es), i, start, size) ==> Meets(es, i, start, size) && es[i].mode != NA4
    ensures es[i].mode != NA4 ==>
      && (Meets(WithoutNa4(es), i, start, size) <==> Meets(es, i, start, size))
      && (CoversAll(WithoutNa4(es), i, start, size) <==> CoversAll(es, i, start, size))
      && WithoutNa4(es)[i] == es[i]
  {
    hide InNapot, Within;
    var s := WithoutNa4(es);
    forall b: nat
      ensures Covers(s, i, b) <==> es[i].mode != NA4 && Covers(es, i, b)
    {
    }
  }

  /** The whole check: the first entry that overlaps decides, NA4 entries left out. It is the architecture's answer
      exactly if no NA4 entry decides or the entry that decides in its place says the same. */
  method Check(es: seq<Entry>, priv: PrivMode, start: nat, size: nat, kind: AccessType) returns (allow: bool)
    requires forall e :: e in es ==> e.addr <= ADDR_MASK
    ensures allow <==> Permitted(WithoutNa4(es), priv, start, size, kind)
    ensures (allow <==> Permitted(es, priv, start, size, kind))
      <==> priv == M || !Na4Decides(es, start, size)
           || (Verdict(es, Deciding(es, 0, start, size), start, size, kind)
               <==> Verdict(es, NextKnown(es, Deciding(es, 0, start, size), start, size), start, size, kind))
  {
    hide Covers, InNapot, Meets, CoversAll, NextKnown, Verdict, Na4Decides;
    ghost var without := WithoutNa4(es);
    RightUnlessPassedOver(es, priv, start, size, kind);
    if priv == M {
      allow := true;
    } else {
      var matched := false;
      allow := false;
      ghost var k := Deciding(without, 0, start, size);
      for i := 0 to |es|
        invariant matched <==> k < i
        invariant allow <==> matched && CoversAll(without, k, start, size) && Allowed(without[k], kind)
      {
        var overlaps, contains := EntryCheck(es, i, start, size);
        assert Allowed(without[i], kind) == Allowed(es[i], kind);
        if !matched && overlaps {
          matched := true;
          allow := contains && Allowed(es[i], kind);
        }
      }
    }
  }

  method EntryCheck(es: seq<Entry>, i: nat, start: nat, size: nat) returns (overlaps: bool, contains: bool)
    requires i < |es| && forall e :: e in es ==> e.addr <= ADDR_MASK
    ensures (overlaps <==> Meets(WithoutNa4(es), i, start, size)) && (overlaps ==> 0 < size)
    ensures 0 < size ==> (contains <==> CoversAll(WithoutNa4(es), i, start, size))
  {
    overlaps, contains := false, false;
    EntryMeans(WithoutNa4(es), i, start, size);
    assert Meets(WithoutNa4(es), i, start, size) ==> 0 < size;
    hide InNapot, Covers, Meets, CoversAll, Within, RangeOverlaps, RangeContains, NapotMeets, NapotHolds;
    match es[i].mode {
      case TOR =>
        var from, to := if i == 0 then 0 else 4 * es[i - 1].addr, 4 * es[i].addr;
        overlaps, contains := RangeOverlaps(start, size, from, to), RangeContains(start, size, from, to);
      case NAPOT =>
        overlaps, contains := NapotCheck(start, size, es[i].addr);
      case _ =>
    }
  }

  /** What it means to meet or hold an access, mode by mode. */
  lemma EntryMeans(es: seq<Entry>, i: nat, start: nat, size: nat)
    requires i < |es|
    ensures es[i].mode == TOR ==>
      var from, to := if i == 0 then 0 else 4 * es[i - 1].addr, 4 * es[i].addr;
      && (RangeOverlaps(start, size, from, to) <==> Meets(es, i, start, size))
      && (0 < size ==> (RangeContains(start, size, from, to) <==> CoversAll(es, i, start, size)))
    ensures es[i].mode == NAPOT ==>
      (NapotMeets(es[i].addr, start, size) <==> Meets(es, i, start, size))
      && (NapotHolds(es[i].addr, start, size) <==> CoversAll(es, i, start, size))
    ensures es[i].mode == OFF ==>
      !Meets(es, i, start, size) && (0 < size ==> !CoversAll(es, i, start, size))
  {
    hide InNapot;
    var from, to := if i == 0 then 0 else 4 * es[i - 1].addr, 4 * es[i].addr;
    if es[i].mode == TOR {
      RangesRight(start, size, from, to);
      forall b: nat
        ensures Covers(es, i, b) <==> Within(b, from, to)
      {
      }
    }
    if 0 < size { assert Within(start, start, start + size); }
    assert es[i].mode == OFF ==> !Covers(es, i, start);
    if es[i].mode == NAPOT {
      forall b: nat
        ensures Covers(es, i, b) <==> InNapot(es[i].addr, b)
      {
      }
    }
  }
}
