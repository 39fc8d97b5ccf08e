/** The atomic unit: LR/SC and read-modify-write over a bus with one open request. */
module AmoUnit {
  import opened Bytes
  import opened Eei
  import opened LittleEndian
  import opened AtomicMemory

  datatype State =
    | Init | WaitReady | WaitValid | SCSuccess | SCFail | AMOLoadReady | AMOLoadValid | AMOStoreReady | AMOStoreValid

  /** A request on the lower bus, and the unit's inputs and outputs in one cycle. */
  datatype Request = Request(addr: nat, wen: bool, wdata: Word, wmask: Mask)

  datatype In = In(clear: bool, cpu: Option<Access>, memReady: bool, memRvalid: bool, memRdata: Word)

  datatype Out = Out(ready: bool, rvalid: bool, rdata: Word, mem: Option<Request>)

  const NO_MASK: Mask := [false, false, false, false, false, false, false, false]

  // ---- arithmetic, as the unit does it ----

  function CalcAmo(op: AmoOp, wdata: seq<Byte>, rdata: seq<Byte>): (b: seq<Byte>)
    requires |wdata| == |rdata|
    ensures |b| == |wdata|
  {
    var lts, ltu := Signed(wdata) < Signed(rdata), Number(wdata) < Number(rdata);
    match op
    case SWAP => wdata
    case ADD => Digits((Number(rdata) + Number(wdata)) % Base(|wdata|), |wdata|)
    case XOR => seq(|wdata|, i requires 0 <= i < |wdata| => ByteOp(op, rdata[i], wdata[i]))
    case AND => seq(|wdata|, i requires 0 <= i < |wdata| => ByteOp(op, rdata[i], wdata[i]))
    case OR => seq(|wdata|, i requires 0 <= i < |wdata| => ByteOp(op, rdata[i], wdata[i]))
    case MIN => if lts then wdata else rdata
    case MAX => if !lts then wdata else rdata
    case MINU => if ltu then wdata else rdata
    case MAXU => if !ltu then wdata else rdata
    case _ => seq(|wdata|, i => 0)
  }

  function GenAmoWdata(r: Access, rdata: Word): Word {
    if r.funct3 == 2 then
      var low := r.addr / 4 % 2 == 0;
      var rdata32, wdata32 := if low then rdata[..4] else rdata[4..], if low then r.wdata[..4] else r.wdata[4..];
      var result := CalcAmo(r.amoop, wdata32, rdata32);
      if low then result + rdata[4..] else rdata[..4] + result
    else if r.funct3 == 3 then CalcAmo(r.amoop, r.wdata, rdata)
    else ZERO_WORD
  }

  /** The masked write leaves the word the atomic operation asks for: the operand replaced, the rest untouched. */
  lemma WriteIsUpdate(r: Access, w: Word)
    requires Fetches(r) && WellFormed(r)
    ensures Merge(w, GenAmoWdata(r, w), r.wmask) == Updated(r, w)
  {
    hide Base, Number, Digits, Signed, ByteOp;
    forall wd: seq<Byte>, rd: seq<Byte> | |wd| == |rd|
      ensures CalcAmo(r.amoop, wd, rd) == Operate(r.amoop, rd, wd)
    {
    }
    var m, g := Merge(w, GenAmoWdata(r, w), r.wmask), GenAmoWdata(r, w);
    assert g == Updated(r, w);
    forall i | 0 <= i < 8
      ensures m[i] == g[i]
    {
      assert r.wmask[i] == InOperand(r, i);
    }
  }

  // ---- registers ----

  datatype Regs = Regs(state: State, saved: Access, isAddrReserved: bool, reservedAddr: nat, fetched: Word)

  predicate SlaveReady(s: State, memRvalid: bool) {
    match s
    case Init | SCFail => true
    case WaitValid | SCSuccess | AMOStoreValid => memRvalid
    case _ => false
  }

  function SlaveAnswer(r: Regs, c: In): Option<Word> {
    match r.state
    case WaitValid => if c.memRvalid then Some(c.memRdata) else None
    case SCSuccess => if c.memRvalid then Some(SC_OK) else None
    case SCFail => Some(SC_FAILED)
    case AMOStoreValid => if c.memRvalid then Some(r.fetched) else None
    case _ => None
  }

  predicate Holds(r: Regs, c: In, a: Access) { !c.clear && r.isAddrReserved && a.addr == r.reservedAddr }

  function ReadOf(a: Access): Option<Request> { Some(Request(a.addr, false, ZERO_WORD, NO_MASK)) }

  function WriteOf(a: Access, data: Word): Option<Request> { Some(Request(a.addr, true, data, a.wmask)) }

  function PassOn(a: Access): Option<Request> { Some(Request(a.addr, a.wen, a.wdata, a.wmask)) }

  /** What a request drives down in the cycle it is accepted. */
  function AcceptDrives(r: Regs, c: In, a: Access): Option<Request> {
    if !a.isAmo then PassOn(a)
    else match a.amoop
      case LR => ReadOf(a)
      case SC => if Holds(r, c, a) then WriteOf(a, a.wdata) else None
      case _ => ReadOf(a)
  }

  function Drives(r: Regs, c: In): Option<Request> {
    match r.state
    case WaitReady =>
      if !r.saved.isAmo then PassOn(r.saved)
      else (match r.saved.amoop
            case LR => ReadOf(r.saved)
            case SC => if c.clear then None else WriteOf(r.saved, r.saved.wdata)
            case _ => None)
    case AMOLoadReady => ReadOf(r.saved)
    case AMOLoadValid => WriteOf(r.saved, GenAmoWdata(r.saved, c.memRdata))
    case AMOStoreReady => WriteOf(r.saved, GenAmoWdata(r.saved, r.fetched))
    case _ => if SlaveReady(r.state, c.memRvalid) && c.cpu.Some? then AcceptDrives(r, c, c.cpu.value) else None
  }

  /** Where an accepted request goes. */
  function AcceptState(r: Regs, c: In, a: Access): State {
    if !a.isAmo then if c.memReady then WaitValid else WaitReady
    else match a.amoop
      case LR => if c.memReady then WaitValid else WaitReady
      case SC => if Holds(r, c, a) then if c.memReady then SCSuccess else WaitReady else SCFail
      case _ => if c.memReady then AMOLoadValid else AMOLoadReady
  }

  // ---- the bus below ----

  datatype Flight = Quiet | Reading(w: Word) | Writing

  datatype Lower = Lower(mem: Mem, flight: Flight)

  /** One request at a time: the bus is ready only when nothing is open, and reads answer what memory held. */
  predicate LowerOk(b: Lower, c: In) {
    && (c.memReady ==> b.flight == Quiet)
    && (c.memRvalid ==> b.flight != Quiet)
    && (c.memRvalid && b.flight.Reading? ==> c.memRdata == b.flight.w)
  }

  ghost function LowerNext(b: Lower, q: Option<Request>, c: In): Lower {
    if q.Some? && c.memReady then
      var k := WordOf(q.value.addr);
      if q.value.wen then Lower(b.mem[k := Merge(b.mem[k], q.value.wdata, q.value.wmask)], Writing)
      else b.(flight := Reading(b.mem[k]))
    else if c.memRvalid then b.(flight := Quiet)
    else b
  }

  // ---- what the registers mean ----

  predicate Deciding(r: Regs) { r.state == WaitReady && Conditional(r.saved) }

  ghost predicate UnitOk(r: Regs, s: Atomic, b: Lower) {
    && b.mem == s.mem
    && (if Deciding(r) then s.reserved == Some(r.saved.addr) && !r.isAddrReserved
        else s.reserved == if r.isAddrReserved then Some(r.reservedAddr) else None)
    && (s.owed.Pending? ==> s.owed.req == r.saved && WellFormed(r.saved))
    && match r.state
       case Init => s.owed == Nothing && b.flight == Quiet
       case WaitReady => s.owed.Pending? && !Fetches(r.saved) && b.flight == Quiet
       case WaitValid =>
         if b.flight.Writing? then s.owed == Done else b.flight.Reading? && s.owed == Answer(b.flight.w)
       case SCSuccess => s.owed == Answer(SC_OK) && b.flight == Writing
       case SCFail => s.owed == Answer(SC_FAILED) && b.flight == Quiet
       case AMOLoadReady => s.owed.Pending? && Fetches(r.saved) && b.flight == Quiet
       case AMOLoadValid => s.owed.Pending? && Fetches(r.saved) && b.flight == Reading(s.mem[WordOf(r.saved.addr)])
       case AMOStoreReady =>
         s.owed.Pending? && Fetches(r.saved) && b.flight == Quiet && r.fetched == s.mem[WordOf(r.saved.addr)]
       case AMOStoreValid => s.owed == Answer(r.fetched) && b.flight == Writing
  }

  /** A request takes effect when the bus takes its last transfer, or when a store-conditional fails. */
  predicate Performs(r: Regs, c: In) {
    match r.state
    case WaitReady => if Conditional(r.saved) && c.clear then true else c.memReady
    case AMOStoreReady => c.memReady
    case AMOLoadReady | AMOLoadValid => false
    case _ =>
      && SlaveReady(r.state, c.memRvalid) && c.cpu.Some?
      && var a := c.cpu.value;
         if Conditional(a) && !Holds(r, c, a) then true else !Fetches(a) && c.memReady
  }

  function Taken(r: Regs, c: In): Option<Access> { if SlaveReady(r.state, c.memRvalid) then c.cpu else None }

  /** The processor's view after the answer, the new request and the lost reservation of a cycle. */
  ghost function Before(r: Regs, s: Atomic, c: In): Atomic {
    var a := if SlaveAnswer(r, c).Some? then s.(owed := Nothing) else s;
    var t := if Taken(r, c).Some? then Take(a, Taken(r, c).value) else a;
    if c.clear then t.(reserved := None) else t
  }

  ghost function SpecNext(r: Regs, s: Atomic, c: In): Atomic {
    var d := Before(r, s, c);
    if Performs(r, c) && d.owed.Pending? then Perform(d, d.owed.req) else d
  }

  /** The registers after a cycle in which a request may be accepted. */
  function AfterAccept(r: Regs, c: In): Regs {
    if c.cpu.None? then r.(state := Init)
    else
      var a := c.cpu.value;
      Regs(AcceptState(r, c, a), a, if Reserves(a) then true else if Conditional(a) then false else r.isAddrReserved,
           if Reserves(a) then a.addr else r.reservedAddr, r.fetched)
  }

  function Cleared(r: Regs, c: In): Regs { if c.clear then r.(isAddrReserved := false) else r }

  /** An edge keeps the meaning of the registers, is one step of the atomic memory, and writes on the bus exactly
      when a request that changes memory takes effect. */
  ghost predicate EdgeOk(r: Regs, s: Atomic, b: Lower, c: In, r': Regs) {
    && UnitOk(r', SpecNext(r, s, c), LowerNext(b, Drives(r, c), c))
    && Step(s, SpecNext(r, s, c), Taken(r, c), SlaveAnswer(r, c), c.clear, Performs(r, c))
    && (Drives(r, c).Some? && Drives(r, c).value.wen && c.memReady
        <==> Performs(r, c) && Changes(Before(r, s, c), Before(r, s, c).owed.req))
  }

  /** The answer of a state that accepts is the one owed. */
  lemma AnswerIsOwed(r: Regs, s: Atomic, b: Lower, c: In)
    requires UnitOk(r, s, b) && LowerOk(b, c) && SlaveReady(r.state, c.memRvalid)
    ensures SlaveAnswer(r, c).Some? ==> s.owed == Done || s.owed == Answer(SlaveAnswer(r, c).value)
    ensures SlaveAnswer(r, c).None? ==> s.owed == Nothing
    ensures c.memReady ==> b.flight == Quiet
    ensures (if c.memRvalid then b.(flight := Quiet) else b).flight == Quiet
    ensures b.mem == s.mem && s.reserved == if r.isAddrReserved then Some(r.reservedAddr) else None
  {
    hide GenAmoWdata;
  }

  lemma IdleKeeps(r: Regs, s: Atomic, b: Lower, c: In)
    requires UnitOk(r, s, b) && LowerOk(b, c) && SlaveReady(r.state, c.memRvalid) && c.cpu.None?
    ensures EdgeOk(r, s, b, c, Cleared(AfterAccept(r, c), c))
  {
    hide GenAmoWdata, SlaveAnswer, Merge, WellFormed, Updated;
    AnswerIsOwed(r, s, b, c);
  }

  lemma PlainKeeps(r: Regs, s: Atomic, b: Lower, c: In)
    requires UnitOk(r, s, b) && LowerOk(b, c) && SlaveReady(r.state, c.memRvalid) && c.cpu.Some?
    requires WellFormed(c.cpu.value) && (!c.cpu.value.isAmo || Reserves(c.cpu.value))
    ensures EdgeOk(r, s, b, c, Cleared(AfterAccept(r, c), c))
  {
    hide GenAmoWdata, SlaveAnswer, Merge, WellFormed, Updated;
    AnswerIsOwed(r, s, b, c);
  }

  lemma ConditionalKeeps(r: Regs, s: Atomic, b: Lower, c: In)
    requires UnitOk(r, s, b) && LowerOk(b, c) && SlaveReady(r.state, c.memRvalid) && c.cpu.Some?
    requires WellFormed(c.cpu.value) && Conditional(c.cpu.value)
    ensures EdgeOk(r, s, b, c, Cleared(AfterAccept(r, c), c))
  {
    hide GenAmoWdata, SlaveAnswer, Merge, WellFormed, Updated;
    AnswerIsOwed(r, s, b, c);
  }

  lemma FetchKeeps(r: Regs, s: Atomic, b: Lower, c: In)
    requires UnitOk(r, s, b) && LowerOk(b, c) && SlaveReady(r.state, c.memRvalid) && c.cpu.Some?
    requires WellFormed(c.cpu.value) && Fetches(c.cpu.value)
    ensures EdgeOk(r, s, b, c, Cleared(AfterAccept(r, c), c))
  {
    hide GenAmoWdata, SlaveAnswer, Merge, WellFormed, Updated;
    AnswerIsOwed(r, s, b, c);
  }

  lemma AcceptKeeps(r: Regs, s: Atomic, b: Lower, c: In)
    requires UnitOk(r, s, b) && LowerOk(b, c) && SlaveReady(r.state, c.memRvalid)
    requires c.cpu.Some? ==> WellFormed(c.cpu.value)
    ensures EdgeOk(r, s, b, c, Cleared(AfterAccept(r, c), c))
  {
    hide EdgeOk, UnitOk, WellFormed, AfterAccept;
    if c.cpu.None? { IdleKeeps(r, s, b, c); }
    else if Conditional(c.cpu.value) { ConditionalKeeps(r, s, b, c); }
    else if Fetches(c.cpu.value) { FetchKeeps(r, s, b, c); }
    else { PlainKeeps(r, s, b, c); }
  }

  /** A request held back waits for the bus; a store-conditional may still lose its reservation. */
  lemma WaitReadyKeeps(r: Regs, s: Atomic, b: Lower, c: In, r': Regs)
    requires UnitOk(r, s, b) && LowerOk(b, c) && r.state == WaitReady
    requires r' == if Conditional(r.saved) && c.clear then r.(state := SCFail)
                   else if c.memReady then r.(state := if Conditional(r.saved) then SCSuccess else WaitValid) else r
    ensures EdgeOk(r, s, b, c, Cleared(r', c))
  {
    hide GenAmoWdata, Merge, WellFormed, Updated;
  }

  /** The three phases of a read-modify-write: the load, its answer, and the one store. */
  lemma ModifyKeeps(r: Regs, s: Atomic, b: Lower, c: In, r': Regs)
    requires UnitOk(r, s, b) && LowerOk(b, c) && r.state in {AMOLoadReady, AMOLoadValid, AMOStoreReady}
    requires r.state == AMOLoadReady ==> r' == if c.memReady then r.(state := AMOLoadValid) else r
    requires r.state == AMOLoadValid ==>
      r' == if c.memRvalid then r.(fetched := c.memRdata, state := AMOStoreReady) else r
    requires r.state == AMOStoreReady ==> r' == if c.memReady then r.(state := AMOStoreValid) else r
    ensures EdgeOk(r, s, b, c, Cleared(r', c))
  {
    hide GenAmoWdata, Merge, WellFormed, Updated;
    WriteIsUpdate(r.saved, s.mem[WordOf(r.saved.addr)]);
  }

  /** A wait for an answer that has not come changes nothing. */
  lemma WaitKeeps(r: Regs, s: Atomic, b: Lower, c: In)
    requires UnitOk(r, s, b) && LowerOk(b, c) && r.state in {WaitValid, SCSuccess, AMOStoreValid} && !c.memRvalid
    ensures EdgeOk(r, s, b, c, Cleared(r, c))
  {
    hide GenAmoWdata, Merge, WellFormed, Updated;
  }

  class Unit {
    var r: Regs
    ghost var s: Atomic
    ghost var b: Lower
    /** Load-reserveds taken, reservations cleared and store-conditionals performed so far. */
    ghost var events: seq<Event>

    /** So a store-conditional writes and reports 0 exactly when the last event is a load-reserved of its address. */
    ghost predicate Valid()
      reads this
    {
      UnitOk(r, s, b) && s.reserved == Holding(events)
    }

    constructor (a: Access, ghost mem: Mem)
      ensures Valid() && s == Atomic(mem, None, Nothing) && b == Lower(mem, Quiet)
    {
      r := Regs(Init, a, false, 0, ZERO_WORD);
      s, b, events := Atomic(mem, None, Nothing), Lower(mem, Quiet), [];
    }

    /** A request accepted in this cycle is saved, and its state chosen, before a trap may clear the reservation. */
    method AcceptRequest(c: In)
      requires UnitOk(r, s, b) && LowerOk(b, c) && SlaveReady(r.state, c.memRvalid)
      requires c.cpu.Some? ==> WellFormed(c.cpu.value)
      modifies `r
      ensures EdgeOk(old(r), s, b, c, Cleared(r, c))
    {
      hide UnitOk, WellFormed, EdgeOk;
      AcceptKeeps(r, s, b, c);
      if c.cpu.Some? {
        var a := c.cpu.value;
        var isAddrReserved, reservedAddr := r.isAddrReserved, r.reservedAddr;
        if a.isAmo && a.amoop == LR {
          isAddrReserved, reservedAddr := true, a.addr;
        } else if a.isAmo && a.amoop == SC {
          isAddrReserved := false;
        }
        r := Regs(AcceptState(r, c, a), a, isAddrReserved, reservedAddr, r.fetched);
      } else {
        r := r.(state := Init);
      }
    }

    /** The registers over one edge. */
    method Advance(c: In)
      requires UnitOk(r, s, b) && LowerOk(b, c) && (c.cpu.Some? ==> WellFormed(c.cpu.value))
      modifies `r
      ensures EdgeOk(old(r), s, b, c, r)
    {
      hide UnitOk, WellFormed, AfterAccept, EdgeOk;
      ghost var was := r;
      match r.state {
        case Init | SCFail =>
          AcceptRequest(c);
        case WaitReady =>
          if Conditional(r.saved) && c.clear {
            r := r.(state := SCFail);
          } else if c.memReady {
            r := r.(state := if Conditional(r.saved) then SCSuccess else WaitValid);
          }
          WaitReadyKeeps(was, s, b, c, r);
        case WaitValid | SCSuccess | AMOStoreValid =>
          if c.memRvalid {
            AcceptRequest(c);
          } else {
            WaitKeeps(r, s, b, c);
          }
        case AMOLoadReady =>
          if c.memReady { r := r.(state := AMOLoadValid); }
          ModifyKeeps(was, s, b, c, r);
        case AMOLoadValid =>
          if c.memRvalid { r := r.(fetched := c.memRdata, state := AMOStoreReady); }
          ModifyKeeps(was, s, b, c, r);
        case AMOStoreReady =>
          if c.memReady { r := r.(state := AMOStoreValid); }
          ModifyKeeps(was, s, b, c, r);
      }
      if c.clear { r := r.(isAddrReserved := false); }
    }

    /** One clock edge. Every request takes effect once and at once, with exactly one write on the bus if it
        changes memory and none otherwise. */
    method Clock(c: In) returns (out: Out)
      requires Valid() && LowerOk(b, c) && (c.cpu.Some? ==> WellFormed(c.cpu.value))
      modifies this
      ensures Valid() && s == SpecNext(old(r), old(s), c) && b == LowerNext(old(b), out.mem, c)
      ensures events == old(events) + EventsOf(old(s), Taken(old(r), c), c.clear, Performs(old(r), c))
      ensures Step(old(s), s, if out.ready then c.cpu else None, if out.rvalid then Some(out.rdata) else None,
                   c.clear, Performs(old(r), c))
      ensures out.mem.Some? && out.mem.value.wen && c.memReady
              <==> Performs(old(r), c) && Changes(Before(old(r), old(s), c), Before(old(r), old(s), c).owed.req)
      // Every state that owes an answer gives it as soon as it can, and a request that waits for the bus is driven.
      ensures out.ready == SlaveReady(old(r.state), c.memRvalid)
      ensures out.ready ==> out.rvalid || old(s).owed == Nothing
      ensures out.rvalid == (old(r.state) == SCFail || (old(r.state) in {WaitValid, SCSuccess, AMOStoreValid} && c.memRvalid))
      ensures old(r.state) in {AMOLoadReady, AMOStoreReady} ==> out.mem.Some?
      ensures old(r.state) == WaitReady && !(c.clear && Conditional(old(r.saved))) ==> out.mem.Some?
      // The store driven while the load's answer is awaited is never taken.
      ensures old(r.state) == AMOLoadValid ==> out.mem.Some? && out.mem.value.wen && !c.memReady
    {
      hide UnitOk, SpecNext, LowerNext, Step, Changes, Before, Performs, WellFormed, AfterAccept, Drives, EventsOf,
        Holding;
      var answer := SlaveAnswer(r, c);
      out := Out(SlaveReady(r.state, c.memRvalid), answer.Some?, if answer.Some? then answer.value else ZERO_WORD, Drives(r, c));
      ghost var was := r;
      BusWhile(r, s, b, c);
      Advance(c);
      ReservationFollows(events, s, SpecNext(was, s, c), Taken(was, c), answer, c.clear, Performs(was, c));
      events := events + EventsOf(s, Taken(was, c), c.clear, Performs(was, c));
      s, b := SpecNext(was, s, c), LowerNext(b, out.mem, c);
    }
  }

  lemma BusWhile(r: Regs, s: Atomic, b: Lower, c: In)
    requires UnitOk(r, s, b) && LowerOk(b, c)
    ensures SlaveReady(r.state, c.memRvalid) && SlaveAnswer(r, c).None? ==> s.owed == Nothing
    ensures r.state == AMOLoadValid ==> !c.memReady && Drives(r, c).Some? && Drives(r, c).value.wen
    ensures r.state in {AMOLoadReady, AMOStoreReady} ==> Drives(r, c).Some?
    ensures r.state == WaitReady && !(c.clear && Conditional(r.saved)) ==> Drives(r, c).Some?
  {
    hide GenAmoWdata;
  }
}
