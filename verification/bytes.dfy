/** Bus words as eight little-endian bytes, byte-masked writes, and bounded ring buffers. */
module Bytes {

  type Byte = b: int | 0 <= b < 256

  /** One 64-bit bus word, byte 0 first. */
  type Word = w: seq<Byte> | |w| == 8 witness [0, 0, 0, 0, 0, 0, 0, 0]

  /** One write strobe per byte lane. */
  type Mask = m: seq<bool> | |m| == 8 witness [false, false, false, false, false, false, false, false]

  /** Bytes an access of this funct3 touches. */
  function AccessSize(funct3: nat): (n: nat)
    ensures n == 1 || n == 2 || n == 4 || n == 8
  {
    match funct3 % 4 case 0 => 1 case 1 => 2 case 2 => 4 case _ => 8
  }

  const ZERO_WORD: Word := [0, 0, 0, 0, 0, 0, 0, 0]
  const FULL_MASK: Mask := [true, true, true, true, true, true, true, true]

  /** The lanes selected by `mask` come from `data`, the others from `prev`. */
  function Merge(prev: Word, data: Word, mask: Mask): (w: Word)
    ensures mask == FULL_MASK ==> w == data
    ensures forall i | 0 <= i < 8 :: w[i] == if mask[i] then data[i] else prev[i]
  {
    seq(8, i requires 0 <= i < 8 => if mask[i] then data[i] else prev[i])
  }
}

/** The occupied part of a ring buffer, oldest element first. */
module Ring {

  function Slot(size: nat, head: nat, i: nat): (s: nat)
    requires head < size && i < size
    ensures s < size
  {
    if head + i < size then head + i else head + i - size
  }

  function Occupied<T>(ring: seq<T>, head: nat, count: nat): (q: seq<T>)
    requires head < |ring| && count <= |ring|
    ensures |q| == count
  {
    seq(count, i requires 0 <= i < count => ring[Slot(|ring|, head, i)])
  }

  lemma PopHead<T>(ring: seq<T>, head: nat, count: nat)
    requires head < |ring| && 0 < count <= |ring|
    ensures 1 < |ring| ==> Occupied(ring, Slot(|ring|, head, 1), count - 1) == Occupied(ring, head, count)[1..]
    ensures Occupied(ring, head, count)[0] == ring[head]
  {
    if 1 < |ring| {
      var q, p := Occupied(ring, head, count), Occupied(ring, Slot(|ring|, head, 1), count - 1);
      forall i | 0 <= i < count - 1 ensures p[i] == q[1..][i] {
        assert Slot(|ring|, Slot(|ring|, head, 1), i) == Slot(|ring|, head, i + 1);
      }
    }
  }

  lemma PushTail<T>(ring: seq<T>, head: nat, count: nat, x: T)
    requires head < |ring| && count < |ring|
    ensures Occupied(ring[Slot(|ring|, head, count) := x], head, count + 1) == Occupied(ring, head, count) + [x]
  {
  }
}
