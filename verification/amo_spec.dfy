/** Little-endian numbers in byte strings. */
module LittleEndian {
  import opened Bytes

  function Base(n: nat): (p: nat)
    ensures 0 < p
  {
    if n == 0 then 1 else 256 * Base(n - 1)
  }

  function Number(b: seq<Byte>): (n: nat)
    ensures n < Base(|b|)
  {
    if b == [] then 0 else b[0] + 256 * Number(b[1..])
  }

  function Digits(n: nat, len: nat): (b: seq<Byte>)
    ensures |b| == len
  {
    if len == 0 then [] else [n % 256] + Digits(n / 256, len - 1)
  }

  lemma {:induction false} NumberOfDigits(n: nat, len: nat)
    requires n < Base(len)
    ensures Number(Digits(n, len)) == n
  {
    if len != 0 {
      NumberOfDigits(n / 256, len - 1);
      assert Digits(n, len)[1..] == Digits(n / 256, len - 1);
    }
  }

  lemma {:induction false} DigitsOfNumber(b: seq<Byte>)
    ensures Digits(Number(b), |b|) == b
  {
    if b != [] {
      DigitsOfNumber(b[1..]);
      assert b == [b[0]] + b[1..];
    }
  }

  /** Two's complement reading. */
  function Signed(b: seq<Byte>): int { if 2 * Number(b) < Base(|b|) then Number(b) else Number(b) - Base(|b|) }
}

/** Atomic memory operations on words: Unprivileged ISA 20191213, chapter 8. */
module AtomicMemory {
  import opened Bytes
  import opened Eei
  import opened LittleEndian
  import FlatMemory

  type Access = FlatMemory.Access

  type Mem = m: imap<nat, Word> | forall k: nat :: k in m ghost witness imap k: nat :: ZERO_WORD

  function WordOf(addr: nat): nat { addr / 8 }

  predicate Conditional(r: Access) { r.isAmo && r.amoop == SC }

  predicate Reserves(r: Access) { r.isAmo && r.amoop == LR }

  /** The read-modify-write operations. */
  predicate Fetches(r: Access) { r.isAmo && r.amoop != LR && r.amoop != SC }

  function ByteOp(op: AmoOp, a: Byte, b: Byte): Byte {
    match op
    case XOR => ((a as bv8) ^ (b as bv8)) as Byte
    case AND => ((a as bv8) & (b as bv8)) as Byte
    case _ => ((a as bv8) | (b as bv8)) as Byte
  }

  /** The operation the ISA names, on numbers of equal length. */
  function Operate(op: AmoOp, old_: seq<Byte>, src: seq<Byte>): (b: seq<Byte>)
    requires |old_| == |src|
    ensures |b| == |src|
  {
    match op
    case ADD => Digits((Number(old_) + Number(src)) % Base(|src|), |src|)
    case XOR => seq(|src|, i requires 0 <= i < |src| => ByteOp(op, old_[i], src[i]))
    case AND => seq(|src|, i requires 0 <= i < |src| => ByteOp(op, old_[i], src[i]))
    case OR => seq(|src|, i requires 0 <= i < |src| => ByteOp(op, old_[i], src[i]))
    case MIN => if Signed(old_) <= Signed(src) then old_ else src
    case MAX => if Signed(old_) <= Signed(src) then src else old_
    case MINU => if Number(old_) <= Number(src) then old_ else src
    case MAXU => if Number(old_) <= Number(src) then src else old_
    case _ => src
  }

  /** The lanes an aligned word or doubleword operation touches. */
  predicate InOperand(r: Access, i: nat) { r.funct3 == 3 || i / 4 == r.addr / 4 % 2 }

  /** A request as the load/store unit forms it: aligned, with strobes on the operand's lanes. */
  predicate WellFormed(r: Access) {
    r.isAmo ==>
      && (r.funct3 == 2 || r.funct3 == 3)
      && r.addr % (if r.funct3 == 3 then 8 else 4) == 0
      && forall i :: 0 <= i < 8 ==> r.wmask[i] == InOperand(r, i)
  }

  /** The operand's bytes of a bus word. */
  function Operand(r: Access, w: Word): seq<Byte> {
    if r.funct3 == 3 then w else if r.addr / 4 % 2 == 0 then w[..4] else w[4..]
  }

  function Replace(r: Access, w: Word, b: seq<Byte>): Word
    requires |b| == |Operand(r, w)|
  {
    if r.funct3 == 3 then b else if r.addr / 4 % 2 == 0 then b + w[4..] else w[..4] + b
  }

  /** What an atomic leaves in the addressed word. */
  function Updated(r: Access, w: Word): Word { Replace(r, w, Operate(r.amoop, Operand(r, w), Operand(r, r.wdata))) }

  // ---- the memory seen by the processor ----

  datatype Owed = Nothing | Pending(req: Access) | Answer(w: Word) | Done

  datatype Atomic = Atomic(mem: Mem, reserved: Option<nat>, owed: Owed)

  const SC_OK: Word := ZERO_WORD
  const SC_FAILED: Word := [1, 0, 0, 0, 0, 0, 0, 0]

  /** A request is taken; a load-reserved reserves at once. */
  ghost function Take(s: Atomic, r: Access): Atomic {
    s.(owed := Pending(r), reserved := if Reserves(r) then Some(r.addr) else s.reserved)
  }

  predicate Succeeds(s: Atomic, r: Access) { Conditional(r) && s.reserved == Some(r.addr) }

  /** Does performing the request change memory? */
  predicate Changes(s: Atomic, r: Access) { if r.isAmo then Fetches(r) || Succeeds(s, r) else r.wen }

  /** The pending request takes effect, all at once. */
  ghost function Perform(s: Atomic, r: Access): Atomic {
    var k := WordOf(r.addr);
    if Conditional(r) then
      if Succeeds(s, r) then Atomic(s.mem[k := Merge(s.mem[k], r.wdata, r.wmask)], None, Answer(SC_OK))
      else Atomic(s.mem, None, Answer(SC_FAILED))
    else if Fetches(r) then Atomic(s.mem[k := Updated(r, s.mem[k])], s.reserved, Answer(s.mem[k]))
    else if !r.isAmo && r.wen then Atomic(s.mem[k := Merge(s.mem[k], r.wdata, r.wmask)], s.reserved, Done)
    else s.(owed := Answer(s.mem[k]))
  }

  /** One edge seen by the processor: an answer, a new request, a reservation lost, a request performed. */
  ghost predicate Step(s: Atomic, s': Atomic, taken: Option<Access>, answer: Option<Word>, clear: bool, performs: bool) {
    && (answer.Some? ==> s.owed == Done || s.owed == Answer(answer.value))
    && var a := if answer.Some? then s.(owed := Nothing) else s;
    && (taken.Some? ==> a.owed == Nothing)
    && var b := if taken.Some? then Take(a, taken.value) else a;
    && var c := if clear then b.(reserved := None) else b;
    && (performs ==> c.owed.Pending?)
    && s' == if performs then Perform(c, c.owed.req) else c
  }

  // ---- reservations over a run ----

  /** The events that matter to a reservation. */
  datatype Event = Reserve(addr: nat) | Clear | StoreConditional(addr: nat)

  function Holding(events: seq<Event>): Option<nat> {
    if events == [] then None
    else match events[|events| - 1] case Reserve(a) => Some(a) case _ => None
  }

  function EventsOf(s: Atomic, taken: Option<Access>, clear: bool, performs: bool): seq<Event> {
    (if taken.Some? && Reserves(taken.value) then [Reserve(taken.value.addr)] else [])
    + (if clear then [Clear] else [])
    + var r := if taken.Some? then Pending(taken.value) else s.owed;
      if performs && r.Pending? && Conditional(r.req) then [StoreConditional(r.req.addr)] else []
  }

  /** The reservation always is what the last event made it. */
  lemma ReservationFollows(events: seq<Event>, s: Atomic, s': Atomic, taken: Option<Access>, answer: Option<Word>,
                           clear: bool, performs: bool)
    requires Holding(events) == s.reserved && Step(s, s', taken, answer, clear, performs)
    ensures Holding(events + EventsOf(s, taken, clear, performs)) == s'.reserved
  {
    hide Updated;
    var new_ := EventsOf(s, taken, clear, performs);
    if new_ == [] { assert events + new_ == events; }
  }
}
