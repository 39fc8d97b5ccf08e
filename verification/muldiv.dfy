/** The RV64M instructions, from the Unprivileged ISA, sections 7.1 and 7.2. */
module RV64M {
  import opened Eei

  const P31: nat := 0x8000_0000
  const P32: nat := 0x1_0000_0000
  const P63: nat := 0x8000_0000_0000_0000
  const P128: nat := 0x1_0000_0000_0000_0000_0000_0000_0000_0000

  type Word64 = x: nat | x < P64

  function Signed64(x: Word64): int { if x < P63 then x else x - P64 }

  function Signed32(x: nat): int
    requires x < P32
  {
    if x < P31 then x else x - P32
  }

  function Sext32(x: nat): (r: Word64)
    requires x < P32
    ensures Signed64(r) == Signed32(x)
  {
    if x < P31 then x else x + (P64 - P32)
  }

  function Abs(a: int): nat { if a < 0 then -a else a }

  /** Division rounding toward zero. */
  function Quot(a: int, b: int): int
    requires b != 0
  {
    if (a < 0) != (b < 0) then -(Abs(a) / Abs(b)) else Abs(a) / Abs(b)
  }

  function Rem(a: int, b: int): int
    requires b != 0
  {
    if a < 0 then -(Abs(a) % Abs(b)) else Abs(a) % Abs(b)
  }

  /** `Quot` and `Rem` are the division the ISA asks for: the remainder is smaller than the divisor and
      takes the sign of the dividend. */
  lemma QuotRem(a: int, b: int)
    requires b != 0
    ensures a == b * Quot(a, b) + Rem(a, b)
    ensures Abs(Rem(a, b)) < Abs(b)
    ensures Rem(a, b) == 0 || (Rem(a, b) < 0 <==> a < 0)
  {
    DivideMagnitudes(a, b, Abs(a) / Abs(b), Abs(a) % Abs(b));
  }

  lemma DivideMagnitudes(a: int, b: int, q: int, r: int)
    requires b != 0 && 0 <= q && 0 <= r && Abs(a) == Abs(b) * q + r && r < Abs(b)
    ensures a == b * (if (a < 0) != (b < 0) then -q else q) + (if a < 0 then -r else r)
  {
    SignsOut(Abs(b), q);
  }

  lemma SignsOut(m: int, n: int)
    ensures (-m) * n == -(m * n) && m * (-n) == -(m * n) && (-m) * (-n) == m * n
  {
  }

  /** The thirteen operations, by function code and width. */
  predicate IsOp(funct3: nat, op32: bool) {
    funct3 < 8 && (op32 ==> funct3 != 1 && funct3 != 2 && funct3 != 3)
  }

  function Result(funct3: nat, op32: bool, x: Word64, y: Word64): Word64
    requires IsOp(funct3, op32)
  {
    if op32 then
      var xs, ys := Signed32(x % P32), Signed32(y % P32);
      match funct3
      case 0 => Sext32(xs * ys % P32)
      case 4 => Sext32(if ys == 0 then P32 - 1 else Quot(xs, ys) % P32)
      case 5 => Sext32(if y % P32 == 0 then P32 - 1 else x % P32 / (y % P32) % P32)
      case 6 => Sext32(if ys == 0 then x % P32 else Rem(xs, ys) % P32)
      case _ => Sext32(if y % P32 == 0 then x % P32 else x % P32 % (y % P32))
    else
      var xs, ys := Signed64(x), Signed64(y);
      match funct3
      case 0 => xs * ys % P64
      case 1 => xs * ys / P64 % P64
      case 2 => xs * y / P64 % P64
      case 3 => x * y / P64 % P64
      case 4 => if y == 0 then P64 - 1 else Quot(xs, ys) % P64
      case 5 => if y == 0 then P64 - 1 else x / y % P64
      case 6 => if y == 0 then x else Rem(xs, ys) % P64
      case _ => if y == 0 then x else x % y
  }
}

/** src/muldivunit.sv: sign handling around the iterative units. */
module MulDivUnit {
  import opened Eei
  import opened Powers
  import opened Quotients
  import opened IterativeUnits
  import opened RV64M

  lemma Pow64()
    ensures Pow2(64) == P64 && Pow2(128) == P128
  {
    hide Pow2;
    Pow8();
    Pow2Add(8, 8);
    Pow2Add(16, 16);
    Pow2Add(32, 32);
    Pow2Add(64, 64);
  }

  lemma Pow8()
    ensures Pow2(8) == 256
  {
  }

  /** `abs`: two's complement negation of a negative word. */
  function AbsWord(v: Word64): (r: Word64)
    ensures r == Abs(Signed64(v))
  {
    if P63 <= v then (P64 - v) % P64 else v
  }

  function MulOp1(funct3: nat, op32: bool, v: Word64): Word64 {
    if funct3 % 4 == 3 then v else AbsWord(if op32 then Sext32(v % P32) else v)
  }

  function MulOp2(funct3: nat, op32: bool, v: Word64): Word64 {
    if funct3 % 4 == 2 || funct3 % 4 == 3 then v else AbsWord(if op32 then Sext32(v % P32) else v)
  }

  /** `generate_div_op1`. */
  function DivOp(funct3: nat, op32: bool, v: Word64): Word64 {
    var signed := funct3 % 2 == 0;
    var ext := if op32 then if signed then Sext32(v % P32) else v % P32 else v;
    if signed then AbsWord(ext) else ext
  }

  predicate SignedOverflow(funct3: nat, op32: bool, op1: Word64, op2: Word64) {
    funct3 % 2 == 0 && if op32 then op1 % P32 == P31 && op2 % P32 == P32 - 1 else op1 == P63 && op2 == P64 - 1
  }

  predicate SignedDivZero(funct3: nat, op32: bool, op2: Word64) {
    funct3 % 2 == 0 && if op32 then op2 % P32 == 0 else op2 == 0
  }

  predicate SignBit(op32: bool, v: Word64) { if op32 then P31 <= v % P32 else P63 <= v }

  /** Selection and sign repair of the product. */
  function MulSelect(funct3: nat, op32: bool, sign1: bool, sign2: bool, m: nat): Word64
    requires m < P128
  {
    var negated := (P128 - m) % P128;
    var resSigned := if sign1 != sign2 then negated else m;
    var resMulhsu := if sign1 then negated else m;
    match funct3 % 4
    case 0 => if op32 then Sext32(resSigned % P32) else resSigned % P64
    case 1 => resSigned / P64
    case 2 => resMulhsu / P64
    case _ => m / P64
  }

  function DivSelect(funct3: nat, op32: bool, sign1: bool, sign2: bool, quotient: Word64, remainder: Word64): Word64 {
    var quoSigned: Word64 := if sign1 != sign2 then (P64 - quotient) % P64 else quotient;
    var remSigned: Word64 := if sign1 then (P64 - remainder) % P64 else remainder;
    var r := match funct3 % 4 case 0 => quoSigned case 1 => quotient case 2 => remSigned case _ => remainder;
    if op32 then Sext32(r % P32) else r
  }

  /** The result of an operand pair that never reaches the divider. */
  function EarlyResult(funct3: nat, op32: bool, op1: Word64, op2: Word64): Word64
    requires SignedOverflow(funct3, op32, op1, op2) || SignedDivZero(funct3, op32, op2)
  {
    if SignedOverflow(funct3, op32, op1, op2) then
      if funct3 / 2 % 2 == 1 then 0 else if op32 then Sext32(P31) else P63
    else if funct3 / 2 % 2 == 1 then op1 else P64 - 1
  }

  /** Negating a product modulo 2^128 is the product of the signed operands. */
  lemma NegatedHalves(m: int)
    requires 0 <= m <= P64 * P63
    ensures
      var n := (P128 - m) % P128;
      n / P64 == (-m) / P64 % P64 && n % P64 == (-m) % P64 && n % P32 == (-m) % P32
    ensures m / P64 == m / P64 % P64
  {
    assert P128 == P64 * P64 && P64 == P32 * P32;
    if m != 0 {
      var n := P128 - m;
      assert n % P128 == n;
      Shifted(-m, P64, P64);
      Shifted(-m, P64 * P32, P32);
      NegatedHigh(m);
    }
    SmallHigh(m);
  }

  lemma NegatedHigh(m: int)
    requires 0 < m <= P64 * P63
    ensures (-m) / P64 % P64 == P64 + (-m) / P64
  {
    var h := (-m) / P64;
    assert 0 - P64 <= h < 0;
    Shifted(h, 1, P64);
  }

  lemma SmallHigh(m: int)
    requires 0 <= m <= P64 * P63
    ensures m / P64 == m / P64 % P64
  {
    var h := m / P64;
    assert 0 <= h < P64;
  }

  lemma ProductFits(a: nat, b: nat)
    requires a <= P63 && b < P64
    ensures a * b <= P64 * P63
  {
    var gap := P63 - a;
    assert a * b + gap * b == P63 * b;
    assert 0 <= gap * b;
  }

  /** The numbers a multiplication other than MULHU multiplies. */
  function Factor1(op32: bool, x: Word64): int { if op32 then Signed32(x % P32) else Signed64(x) }

  function Factor2(funct3: nat, op32: bool, y: Word64): int { if funct3 == 2 then y else Factor1(op32, y) }

  lemma Factors(funct3: nat, op32: bool, x: Word64, y: Word64)
    requires IsOp(funct3, op32) && funct3 < 3
    ensures MulOp1(funct3, op32, x) == Abs(Factor1(op32, x)) <= P63 && MulOp2(funct3, op32, y) == Abs(Factor2(funct3, op32, y))
    ensures SignBit(op32, x) == (Factor1(op32, x) < 0) && (funct3 != 2 ==> SignBit(op32, y) == (Factor2(funct3, op32, y) < 0))
  {
  }

  /** Repairing the sign of the product of the magnitudes gives the bits of the product. */
  lemma SelectProduct(funct3: nat, op32: bool, x: Word64, y: Word64, sign2: bool, m: nat, p: int)
    requires IsOp(funct3, op32) && funct3 < 3 && m <= P64 * P63 && p == Factor1(op32, x) * Factor2(funct3, op32, y)
    requires p == if (Factor1(op32, x) < 0) != (funct3 != 2 && sign2) then 0 - m else m
    ensures m < P128 && MulSelect(funct3, op32, Factor1(op32, x) < 0, sign2, m) == Result(funct3, op32, x, y)
  {
    hide Sext32, Signed32, Signed64;
    NegatedHalves(m);
    assert m % P64 % P32 == m % P32 by { RemainderOf(m, P32, P32); }
  }

  /** Multiplying magnitudes and repairing the sign is multiplying. */
  lemma MulSelectCorrect(funct3: nat, op32: bool, x: Word64, y: Word64, m: nat)
    requires IsOp(funct3, op32) && funct3 < 4
    requires m == MulOp1(funct3, op32, x) * MulOp2(funct3, op32, y) && m < P128
    ensures MulSelect(funct3, op32, SignBit(op32, x), SignBit(op32, y), m) == Result(funct3, op32, x, y)
  {
    if funct3 == 3 {
      Mulhu(x, y);
    } else {
      hide Factor1, Factor2, MulOp1, MulOp2, SignBit, Result, MulSelect, Abs;
      var xs, ys := Factor1(op32, x), Factor2(funct3, op32, y);
      Factors(funct3, op32, x, y);
      ProductFits(MulOp1(funct3, op32, x), MulOp2(funct3, op32, y));
      SignedProduct(xs, ys);
      SelectProduct(funct3, op32, x, y, SignBit(op32, y), m, xs * ys);
    }
  }

  lemma SignedProduct(a: int, b: int)
    ensures a * b == if (a < 0) != (b < 0) then 0 - Abs(a) * Abs(b) else Abs(a) * Abs(b)
  {
    SignsOut(Abs(a), Abs(b));
  }

  lemma ProductBelow(x: Word64, y: Word64)
    ensures x * y < P128
  {
    var gap := P64 - y;
    assert x * y + x * gap == x * P64;
    assert 0 <= x * gap;
  }

  lemma Mulhu(x: Word64, y: Word64)
    ensures x * y < P128 && x * y / P64 % P64 == x * y / P64
  {
    var gap := P64 - y;
    assert x * y + x * gap == x * P64;
    assert 0 <= x * gap;
  }

  /** Only an unsigned division reaches the divider with a zero divisor, and its outputs are the answer. */
  lemma DivisorZero(funct3: nat, op32: bool, x: Word64, y: Word64)
    requires IsOp(funct3, op32) && 4 <= funct3 && !SignedDivZero(funct3, op32, y) && DivOp(funct3, op32, y) == 0
    ensures DivSelect(funct3, op32, SignBit(op32, x), SignBit(op32, y), P64 - 1, DivOp(funct3, op32, x)) == Result(funct3, op32, x, y)
  {
    hide Quot, Rem, MulSelect;
  }

  /** Dividing magnitudes and repairing the signs is division rounding toward zero. */
  lemma DivSelectCorrect(funct3: nat, op32: bool, x: Word64, y: Word64, q: Word64, r: Word64)
    requires IsOp(funct3, op32) && 4 <= funct3
    requires !SignedOverflow(funct3, op32, x, y) && !SignedDivZero(funct3, op32, y)
    requires
      var n, d := DivOp(funct3, op32, x), DivOp(funct3, op32, y);
      if d == 0 then q == P64 - 1 && r == n else n == r + Times(q, d) && r < d
    ensures DivSelect(funct3, op32, SignBit(op32, x), SignBit(op32, y), q, r) == Result(funct3, op32, x, y)
  {
    hide Times, Quot, Rem, DivSelect, Result, SignBit, DivOp, SignedOverflow, SignedDivZero;
    var n, d := DivOp(funct3, op32, x), DivOp(funct3, op32, y);
    if d == 0 {
      DivisorZero(funct3, op32, x, y);
    } else {
      TimesIs(q, d);
      QuotientUnique(d, n, q, r);
      MagnitudeBounds(n, d, q, r);
      if funct3 % 2 == 0 {
        RepairSigns(funct3, op32, x, y, q, r);
      } else {
        Unsigned(funct3, op32, x, y, q, r);
      }
    }
  }

  lemma Unsigned(funct3: nat, op32: bool, x: Word64, y: Word64, q: Word64, r: Word64)
    requires IsOp(funct3, op32) && 4 <= funct3 && funct3 % 2 == 1
    requires
      var n, d := DivOp(funct3, op32, x), DivOp(funct3, op32, y);
      d != 0 && n / d == q && n % d == r && q <= n && r <= n
    ensures DivSelect(funct3, op32, SignBit(op32, x), SignBit(op32, y), q, r) == Result(funct3, op32, x, y)
  {
    hide DivOp, Result, DivSelect, SignBit;
    UnsignedOps(funct3, op32, x);
    UnsignedOps(funct3, op32, y);
    if op32 {
      UnsignedHalf(funct3, SignBit(true, x), SignBit(true, y), x, y, x % P32, y % P32);
    } else {
      UnsignedFull(funct3, SignBit(false, x), SignBit(false, y), x, y);
    }
  }

  lemma UnsignedHalf(funct3: nat, sign1: bool, sign2: bool, x: Word64, y: Word64, n: nat, d: nat)
    requires (funct3 == 5 || funct3 == 7) && n == x % P32 && d == y % P32 && d != 0 && n / d <= n && n % d <= n
    ensures DivSelect(funct3, true, sign1, sign2, n / d, n % d) == Result(funct3, true, x, y)
  {
    hide Sext32, Signed32, Signed64, Quot, Rem;
    assert n < P32 && n / d % P32 == n / d && n % d % P32 == n % d by { Small(n / d, P32); Small(n % d, P32); }
  }

  lemma UnsignedFull(funct3: nat, sign1: bool, sign2: bool, x: Word64, y: Word64)
    requires (funct3 == 5 || funct3 == 7) && y != 0 && x / y <= x && x % y <= x
    ensures DivSelect(funct3, false, sign1, sign2, x / y, x % y) == Result(funct3, false, x, y)
  {
    hide Sext32, Signed32, Signed64, Quot, Rem;
    Small(x / y, P64);
  }

  lemma Small(a: nat, p: nat)
    requires a < p
    ensures a % p == a
  {
  }

  lemma UnsignedOps(funct3: nat, op32: bool, x: Word64)
    requires funct3 % 2 == 1
    ensures DivOp(funct3, op32, x) == if op32 then x % P32 else x
  {
  }

  lemma MagnitudeBounds(n: nat, d: nat, q: nat, r: nat)
    requires 0 < d && n == q * d + r
    ensures q <= n && r <= n
    ensures d > 1 ==> 2 * q <= n
  {
    assert q <= q * d;
    if d > 1 {
      assert q * d >= q * 2;
    }
  }

  lemma RepairSigns(funct3: nat, op32: bool, x: Word64, y: Word64, q: Word64, r: Word64)
    requires IsOp(funct3, op32) && 4 <= funct3 && funct3 % 2 == 0
    requires !SignedOverflow(funct3, op32, x, y) && !SignedDivZero(funct3, op32, y)
    requires
      var n, d := DivOp(funct3, op32, x), DivOp(funct3, op32, y);
      d != 0 && n / d == q && n % d == r && q <= n && r <= n && (d > 1 ==> 2 * q <= n)
    ensures DivSelect(funct3, op32, SignBit(op32, x), SignBit(op32, y), q, r) == Result(funct3, op32, x, y)
  {
    var xs: int := if op32 then Signed32(x % P32) else Signed64(x);
    var ys: int := if op32 then Signed32(y % P32) else Signed64(y);
    assert DivOp(funct3, op32, x) == Abs(xs) && DivOp(funct3, op32, y) == Abs(ys) && ys != 0;
    assert SignBit(op32, x) == (xs < 0) && SignBit(op32, y) == (ys < 0);
    var qs: int := if (xs < 0) != (ys < 0) then 0 - q else q;
    var rs: int := if xs < 0 then 0 - r else r;
    assert Quot(xs, ys) == qs && Rem(xs, ys) == rs;
    NegatedWord(q);
    NegatedWord(r);
    Select(funct3, op32, x, y, q, r, qs, rs);
  }

  lemma NegatedWord(q: int)
    requires 0 <= q < P64
    ensures (P64 - q) % P64 == (-q) % P64 && (P64 - q) % P64 % P32 == (-q) % P32
  {
    assert P64 == P32 * P32;
    Shifted(-q, 1, P64);
    RemainderOf(-q, P32, P32);
  }

  lemma Select(funct3: nat, op32: bool, x: Word64, y: Word64, q: Word64, r: Word64, qs: int, rs: int)
    requires IsOp(funct3, op32) && (funct3 == 4 || funct3 == 6) && !SignedDivZero(funct3, op32, y)
    requires qs == if SignBit(op32, x) != SignBit(op32, y) then 0 - q else q
    requires rs == if SignBit(op32, x) then 0 - r else r
    requires
      var xs: int := if op32 then Signed32(x % P32) else Signed64(x);
      var ys: int := if op32 then Signed32(y % P32) else Signed64(y);
      ys != 0 && Quot(xs, ys) == qs && Rem(xs, ys) == rs
    ensures DivSelect(funct3, op32, SignBit(op32, x), SignBit(op32, y), q, r) == Result(funct3, op32, x, y)
  {
    hide Quot, Rem, Sext32, SignBit;
    NegatedWord(q);
    NegatedWord(r);
  }

  /** The operand pairs answered without the divider get the ISA's special results, except that REMW by
      zero hands back the whole of `op1`. */
  lemma EarlyResultExact(funct3: nat, op32: bool, x: Word64, y: Word64)
    requires IsOp(funct3, op32) && 4 <= funct3
    requires SignedOverflow(funct3, op32, x, y) || SignedDivZero(funct3, op32, y)
    ensures EarlyResult(funct3, op32, x, y) == Result(funct3, op32, x, y)
            <==> !(funct3 == 6 && op32 && y % P32 == 0 && x != Sext32(x % P32))
  {
    if SignedOverflow(funct3, op32, x, y) {
      assert !op32 ==> Signed64(x) == 0 - P63 && Signed64(y) == -1;
      assert op32 ==> Signed32(x % P32) == 0 - P31 && Signed32(y % P32) == -1;
      assert Quot(0 - P63, -1) == P63 && Rem(0 - P63, -1) == 0;
      assert Quot(0 - P31, -1) == P31 && Rem(0 - P31, -1) == 0;
    }
  }

  /** REMW of 2^32 by zero answers 2^32, where the ISA asks for 0. */
  lemma RemwByZeroExample()
    ensures SignedDivZero(6, true, 0)
    ensures EarlyResult(6, true, P32, 0) == P32 && Result(6, true, P32, 0) == 0
  {
  }

  datatype State = Idle | WaitValid | Finish

  /** An operation as it was accepted. */
  datatype Op = Op(funct3: nat, op32: bool, op1: Word64, op2: Word64) {
    /** The operands the unit answers wrongly: REMW by zero of a word that is not sign-extended. */
    predicate Unextended() {
      funct3 == 6 && op32 && op2 % P32 == 0 && op1 != Sext32(op1 % P32)
    }
  }

  /** The answer to an operation is the ISA's for all operands but the unextended REMW by zero. */
  predicate Answered(op: Op, result: Word64) {
    IsOp(op.funct3, op.op32) ==> (result == Result(op.funct3, op.op32, op.op1, op.op2) <==> !op.Unextended())
  }

  class MulDiv {
    var state: State
    var result: Word64
    var funct3Saved: nat
    var isOp32Saved: bool
    var op1Sign: bool
    var op2Sign: bool
    const mu: MulUnit
    const du: DivUnit

    ghost var op: Op

    ghost predicate Valid()
      reads this, mu, du
    {
      && mu.Valid() && du.Valid() && mu.width == 64 && du.width == 64
      && op.funct3 < 8
      && (state == Idle || state == Finish ==> mu.state == MulIdle && du.state == DivIdle)
      && (state == WaitValid ==> Saved() && if op.funct3 < 4 then Multiplying() else Dividing())
      && (state == Finish ==> Answered(op, result))
    }

    /** Edges until the unit is ready again. */
    ghost function Remaining(): nat
      reads this, mu, du
    {
      match state
      case Idle => 0
      case WaitValid => 1 + mu.Remaining() + du.Remaining()
      case Finish => 1
    }

    constructor ()
      ensures Valid() && state == Idle && fresh(mu) && fresh(du) && op == Op(0, false, 0, 0)
    {
      mu := new MulUnit(64);
      du := new DivUnit(64);
      state, result, funct3Saved, isOp32Saved, op1Sign, op2Sign := Idle, 0, 0, false, false, false;
      op := Op(0, false, 0, 0);
    }

    /** One clock edge. An operation accepted when idle is answered once, in at most 68 edges, with the
        ISA's result for all operands but the unextended REMW by zero; and the answer does not change
        until the next operation is accepted. */
    method Clock(valid: bool, funct3: nat, isOp32: bool, op1: Word64, op2: Word64)
      requires Valid()
      requires funct3 < 8
      modifies this, mu, du
      ensures Valid()
      ensures if old(state) == Idle && valid then
                op == Op(funct3, isOp32, op1, op2) && 0 < Remaining() <= 68 && state != Idle
              else
                op == old(op) && (0 < old(Remaining()) ==> Remaining() < old(Remaining()))
                && (old(state) == Idle ==> state == Idle && result == old(result))
      ensures old(state) == Finish ==> state == Idle && result == old(result)
      ensures state == Idle ==> old(state) == Finish || (old(state) == Idle && !valid)
    {
      hide Times, MulSelect, DivSelect, Result, EarlyResult, MulOp1, MulOp2, DivOp, SignedOverflow, SignedDivZero,
        SignBit, Pow2, ShiftRight, Sext32, op.Unextended;
      Pow64();
      TimesIs(mu.a, mu.b);
      var muRvalid, muResult := mu.state == MulFinish, mu.result;
      var duRvalid, duQuotient, duRemainder := du.state == DivFinish, du.quotient, du.dividendSaved;
      var isMul := if state == Idle then funct3 / 4 % 2 == 0 else funct3Saved / 4 % 2 == 0;
      var accept := state == Idle && valid;
      var overflow, divZero := SignedOverflow(funct3, isOp32, op1, op2), SignedDivZero(funct3, isOp32, op2);
      mu.Clock(accept && isMul, MulOp1(funct3, isOp32, op1), MulOp2(funct3, isOp32, op2));
      du.Clock(accept && !isMul && !(overflow || divZero), DivOp(funct3, isOp32, op1), DivOp(funct3, isOp32, op2));
      match state {
        case Idle =>
          if valid {
            Start(isMul, funct3, isOp32, op1, op2);
          }
        case WaitValid =>
          Collect(isMul, muRvalid, muResult, duRvalid, duQuotient, duRemainder);
        case Finish =>
          state := Idle;
      }
    }

    /** What is saved of the operation in progress. */
    ghost predicate Saved()
      reads this
    {
      && op.funct3 < 8
      && funct3Saved == op.funct3 && isOp32Saved == op.op32
      && op1Sign == SignBit(op.op32, op.op1) && op2Sign == SignBit(op.op32, op.op2)
    }

    ghost predicate Multiplying()
      reads this, mu, du
    {
      && mu.state != MulIdle && du.state == DivIdle
      && mu.a == MulOp1(op.funct3, op.op32, op.op1) && mu.b == MulOp2(op.funct3, op.op32, op.op2)
    }

    ghost predicate Dividing()
      reads this, mu, du
    {
      && du.state != DivIdle && mu.state == MulIdle
      && du.n == DivOp(op.funct3, op.op32, op.op1) && du.d == DivOp(op.funct3, op.op32, op.op2)
      && !SignedOverflow(op.funct3, op.op32, op.op1, op.op2) && !SignedDivZero(op.funct3, op.op32, op.op2)
    }

    method Start(isMul: bool, funct3: nat, isOp32: bool, op1: Word64, op2: Word64)
      requires mu.Valid() && du.Valid() && mu.width == 64 && du.width == 64 && funct3 < 8 && isMul == (funct3 < 4)
      requires
        var early := SignedOverflow(funct3, isOp32, op1, op2) || SignedDivZero(funct3, isOp32, op2);
        if isMul then
          mu.state != MulIdle && du.state == DivIdle && mu.a == MulOp1(funct3, isOp32, op1) && mu.b == MulOp2(funct3, isOp32, op2)
        else if early then mu.state == MulIdle && du.state == DivIdle
        else mu.state == MulIdle && du.state != DivIdle && du.n == DivOp(funct3, isOp32, op1) && du.d == DivOp(funct3, isOp32, op2)
      modifies this
      ensures Valid() && op == Op(funct3, isOp32, op1, op2)
      ensures state == if !isMul && mu.state == MulIdle && du.state == DivIdle then Finish else WaitValid
    {
      hide mu.Valid, du.Valid, Result, EarlyResult, MulOp1, MulOp2, DivOp, SignedOverflow, SignedDivZero, SignBit;
      op := Op(funct3, isOp32, op1, op2);
      funct3Saved, isOp32Saved := funct3, isOp32;
      op1Sign, op2Sign := SignBit(isOp32, op1), SignBit(isOp32, op2);
      state := WaitValid;
      if !isMul && (SignedOverflow(funct3, isOp32, op1, op2) || SignedDivZero(funct3, isOp32, op2)) {
        EarlyResultExact(funct3, isOp32, op1, op2);
        state, result := Finish, EarlyResult(funct3, isOp32, op1, op2);
      }
    }

    method Collect(isMul: bool, muRvalid: bool, muResult: nat, duRvalid: bool, duQuotient: nat, duRemainder: nat)
      requires mu.Valid() && du.Valid() && mu.width == 64 && du.width == 64
      requires state == WaitValid && Saved() && isMul == (op.funct3 < 4)
      requires
        if isMul then
          if muRvalid then
            mu.state == MulIdle && du.state == DivIdle
            && muResult == MulOp1(op.funct3, op.op32, op.op1) * MulOp2(op.funct3, op.op32, op.op2)
          else Multiplying()
        else if duRvalid then
          && mu.state == MulIdle && du.state == DivIdle && duQuotient < P64 && duRemainder < P64
          && !SignedOverflow(op.funct3, op.op32, op.op1, op.op2) && !SignedDivZero(op.funct3, op.op32, op.op2)
          && var n, d := DivOp(op.funct3, op.op32, op.op1), DivOp(op.funct3, op.op32, op.op2);
             if d == 0 then duQuotient == P64 - 1 && duRemainder == n
             else n == duRemainder + Times(duQuotient, d) && duRemainder < d
        else Dividing()
      modifies this`state, this`result
      ensures Valid() && state == if (isMul && muRvalid) || (!isMul && duRvalid) then Finish else WaitValid
    {
      hide mu.Valid, du.Valid, Result, MulOp1, MulOp2, DivOp, MulSelect, DivSelect, SignedOverflow, SignedDivZero,
        SignBit;
      if isMul && muRvalid {
        ProductBelow(MulOp1(op.funct3, op.op32, op.op1), MulOp2(op.funct3, op.op32, op.op2));
        if IsOp(op.funct3, op.op32) {
          MulSelectCorrect(op.funct3, op.op32, op.op1, op.op2, muResult);
          NotUnextended(op);
        }
        state, result := Finish, MulSelect(funct3Saved, isOp32Saved, op1Sign, op2Sign, muResult);
      } else if !isMul && duRvalid {
        DivSelectCorrect(op.funct3, op.op32, op.op1, op.op2, duQuotient, duRemainder);
        NotUnextended(op);
        state, result := Finish, DivSelect(funct3Saved, isOp32Saved, op1Sign, op2Sign, duQuotient, duRemainder);
      }
    }
  }

  /** The exceptional operands never reach the iterative units. */
  lemma NotUnextended(op: Op)
    requires IsOp(op.funct3, op.op32)
    requires 4 <= op.funct3 ==> !SignedDivZero(op.funct3, op.op32, op.op2)
    ensures !op.Unextended()
  {
  }
}
