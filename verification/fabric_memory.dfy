/** The RAM: one request at a time, reads answered after one edge, masked writes after two. */
module RamMemory {
  import opened Bytes
  import opened Eei

  /** A request on a memory bus. */
  datatype Req = Req(addr: nat, wen: bool, wdata: Word, wmask: Mask)

  datatype State = Ready | WriteValid

  datatype Regs = Regs(state: State, rvalid: bool, rdata: Word, addrSaved: nat, wdataSaved: Word, wmaskSaved: Mask, rdataSaved: Word)

  /** Memory words after a write. */
  function Written(m: seq<Word>, a: nat, w: Word, mask: Mask): seq<Word>
    requires a < |m|
  {
    m[a := Merge(m[a], w, mask)]
  }

  /** Memory words after a request is taken. */
  function AfterReq(m: seq<Word>, q: Req): (m': seq<Word>)
    requires q.addr < |m|
    ensures |m'| == |m|
  {
    if q.wen then Written(m, q.addr, q.wdata, q.wmask) else m
  }

  class Memory {
    const mem: array<Word>
    var r: Regs

    ghost predicate Valid()
      reads this, mem
    {
      && (r.state == WriteValid ==> r.addrSaved < mem.Length && r.rdataSaved == mem[r.addrSaved] && !r.rvalid)
    }

    /** The words, with a write that was taken counted at once. */
    ghost function Contents(): (m: seq<Word>)
      requires Valid()
      reads this, mem
      ensures |m| == mem.Length
    {
      if r.state == WriteValid then Written(mem[..], r.addrSaved, r.wdataSaved, r.wmaskSaved) else mem[..]
    }

    constructor (words: nat)
      ensures Valid() && fresh(mem) && mem.Length == words && r.state == Ready && !r.rvalid
      ensures Contents() == seq(words, i => ZERO_WORD)
    {
      mem := new Word[words](_ => ZERO_WORD);
      r := Regs(Ready, false, ZERO_WORD, 0, ZERO_WORD, [false, false, false, false, false, false, false, false], ZERO_WORD);
      new;
      assert mem[..] == seq(words, i => ZERO_WORD);
    }

    /** One clock edge. A write never meets another answer: requests come only when nothing is pending. */
    method Clock(q: Option<Req>)
      requires Valid() && (q.Some? ==> q.value.addr < mem.Length)
      requires r.state == WriteValid ==> q.None?
      modifies this, mem
      ensures Valid()
      ensures Contents() == if q.Some? then AfterReq(old(Contents()), q.value) else old(Contents())
      ensures r.state == if q.Some? && q.value.wen then WriteValid else Ready
      ensures r.rvalid == ((q.Some? && !q.value.wen) || old(r.state) == WriteValid)
      ensures q.Some? && !q.value.wen ==> r.rdata == old(Contents())[q.value.addr]
    {
      if r.state == WriteValid {
        ghost var m := mem[..];
        mem[r.addrSaved] := Merge(r.rdataSaved, r.wdataSaved, r.wmaskSaved);
        assert mem[..] == m[r.addrSaved := Merge(r.rdataSaved, r.wdataSaved, r.wmaskSaved)];
        r := r.(state := Ready, rvalid := true, rdata := r.rdataSaved);
      } else if q.Some? {
        var a := q.value.addr;
        r := Regs(if q.value.wen then WriteValid else Ready, !q.value.wen, mem[a], a, q.value.wdata, q.value.wmask, mem[a]);
      } else {
        r := r.(rvalid := false);
      }
    }
  }
}
