/** The multi-entry queue: a ring of 2^WIDTH slots of which one always stays free. */
module Queues {
  import opened Ring

  class Fifo<T(0)> {
    const mem: array<T>
    var head: nat
    var tail: nat

    ghost predicate Valid()
      reads this
    {
      3 <= mem.Length && head < mem.Length && tail < mem.Length
    }

    ghost function Count(): nat
      requires Valid()
      reads this
    {
      if head <= tail then tail - head else tail + mem.Length - head
    }

    /** Queued elements, oldest first. */
    ghost function Contents(): (q: seq<T>)
      requires Valid()
      reads this, mem
      ensures |q| == Count()
    {
      Occupied(mem[..], head, Count())
    }

    constructor (size: nat, blank: T)
      requires 3 <= size
      ensures Valid() && fresh(mem) && mem.Length == size && Contents() == []
    {
      mem := new T[size](_ => blank);
      head, tail := 0, 0;
    }

    function Next(p: nat): nat
      requires 0 < mem.Length
    {
      if p + 1 == mem.Length then 0 else p + 1
    }

    /** Room for one more, and for two more. */
    predicate WReady()
      reads this
      requires Valid()
      ensures WReady() <==> Count() + 2 <= mem.Length
    {
      Next(tail) != head
    }

    predicate WReadyTwo()
      reads this
      requires Valid()
      ensures WReadyTwo() <==> Count() + 3 <= mem.Length
    {
      WReady() && Next(Next(tail)) != head
    }

    predicate RValid()
      reads this
      requires Valid()
      ensures RValid() <==> Count() > 0
    {
      head != tail
    }

    function RData(): (x: T)
      reads this, mem
      requires Valid() && RValid()
      ensures x == Contents()[0]
    {
      mem[head]
    }

    /** One clock edge: a flush empties the queue; otherwise a write and a read may happen together. */
    method Clock(flush: bool, wvalid: bool, wdata: T, rready: bool)
      requires Valid()
      modifies this, mem
      ensures Valid()
      ensures Contents() ==
        if flush then []
        else (if rready && old(RValid()) then old(Contents())[1..] else old(Contents()))
             + (if wvalid && old(WReady()) then [wdata] else [])
    {
      if flush {
        head, tail := 0, 0;
      } else {
        ghost var ring, h, n := mem[..], head, Count();
        var write, read := WReady() && wvalid, rready && RValid();
        if write {
          mem[tail] := wdata;
          tail := Next(tail);
          PushTail(ring, h, n, wdata);
          assert mem[..] == ring[Slot(|ring|, h, n) := wdata];
        }
        if read {
          PopHead(mem[..], h, Count());
          head := Next(head);
        }
      }
    }
  }
}

/** The instruction stream in memory: halfwords parsed one instruction after another. */
module InstructionStream {
  type Half = x: nat | x < 0x1_0000

  /** Memory by halfword number, and the expansion of compressed instructions. */
  datatype Code = Code(half: nat -> Half, expand: Half -> nat)

  datatype Issued = Issued(addr: nat, bits: nat, isRvc: bool)

  predicate Compressed(h: Half) { h % 4 != 3 }

  function Joined(low: Half, high: Half): nat { low + 0x1_0000 * high }

  function InstAt(c: Code, pc: nat): Issued {
    var h := c.half(pc / 2);
    if Compressed(h) then Issued(pc, c.expand(h), true) else Issued(pc, Joined(h, c.half(pc / 2 + 1)), false)
  }

  function NextPc(c: Code, pc: nat): nat { if Compressed(c.half(pc / 2)) then pc + 2 else pc + 4 }

  /** Where the n-th instruction from pc starts. */
  function PcAfter(c: Code, pc: nat, n: nat): nat { if n == 0 then pc else NextPc(c, PcAfter(c, pc, n - 1)) }

  /** The first n instructions from pc. */
  function Stream(c: Code, pc: nat, n: nat): (s: seq<Issued>)
    ensures |s| == n
  {
    if n == 0 then [] else Stream(c, pc, n - 1) + [InstAt(c, PcAfter(c, pc, n - 1))]
  }

  lemma {:induction false} PcAfterEven(c: Code, pc: nat, n: nat)
    requires pc % 2 == 0
    ensures PcAfter(c, pc, n) % 2 == 0
  {
    if n != 0 { PcAfterEven(c, pc, n - 1); }
  }

  lemma {:induction false} PcAfterFirst(c: Code, pc: nat, n: nat)
    ensures PcAfter(c, NextPc(c, pc), n) == PcAfter(c, pc, n + 1)
  {
    if n != 0 { PcAfterFirst(c, pc, n - 1); }
  }

  /** Taking the first instruction leaves the stream from the next one. */
  lemma {:induction false} StreamFirst(c: Code, pc: nat, n: nat)
    requires 0 < n
    ensures Stream(c, pc, n)[0] == InstAt(c, pc)
    ensures Stream(c, pc, n)[1..] == Stream(c, NextPc(c, pc), n - 1)
  {
    if n > 1 {
      StreamFirst(c, pc, n - 1);
      PcAfterFirst(c, pc, n - 2);
      assert Stream(c, pc, n)[1..] == Stream(c, pc, n - 1)[1..] + [InstAt(c, PcAfter(c, pc, n - 1))];
    }
  }

  lemma {:induction false} PcAfterSum(c: Code, pc: nat, m: nat, n: nat)
    ensures PcAfter(c, PcAfter(c, pc, m), n) == PcAfter(c, pc, m + n)
  {
    if n != 0 { PcAfterSum(c, pc, m, n - 1); }
  }

  /** Instructions given to the core, instructions waiting, and the position after them: all one stream. */
  ghost predicate InStream(c: Code, start: nat, given: seq<Issued>, waiting: seq<Issued>, pos: nat) {
    && given == Stream(c, start, |given|)
    && waiting == Stream(c, PcAfter(c, start, |given|), |waiting|)
    && pos == PcAfter(c, start, |given| + |waiting|)
  }

  /** The instruction at the position joins those that wait. */
  lemma Append(c: Code, start: nat, given: seq<Issued>, waiting: seq<Issued>, pos: nat)
    requires InStream(c, start, given, waiting, pos)
    ensures InStream(c, start, given, waiting + [InstAt(c, pos)], NextPc(c, pos))
  {
    hide NextPc, InstAt;
    PcAfterSum(c, start, |given|, |waiting|);
  }

  /** The first that waits is given to the core. */
  lemma Give(c: Code, start: nat, given: seq<Issued>, waiting: seq<Issued>, pos: nat)
    requires InStream(c, start, given, waiting, pos) && waiting != []
    ensures InStream(c, start, given + [waiting[0]], waiting[1..], pos)
  {
    hide NextPc, InstAt;
    StreamFirst(c, PcAfter(c, start, |given|), |waiting|);
  }
}
