/** src/muldivunit.sv: the iterative multiplier and divider, for any operand width. */
module IterativeUnits {
  import opened Powers

  datatype MulState = MulIdle | AddLoop | MulFinish

  /** Shift-add multiplier. */
  class MulUnit {
    const width: nat
    var state: MulState
    var result: nat
    var op1zext: nat
    var op2zext: nat
    var addCount: nat

    ghost var a: nat
    ghost var b: nat

    ghost predicate Valid()
      reads this
    {
      && a < Pow2(width) && b < Pow2(width)
      && addCount <= width
      && (state == AddLoop ==>
            && op2zext == b
            && op1zext == Times(a, Pow2(addCount))
            && Times(a, b) == result + Times(op1zext, ShiftRight(b, addCount)))
      && (state == MulFinish ==> result == Times(a, b))
    }

    /** Edges until the unit is idle again. */
    function Remaining(): nat
      reads this
    {
      match state
      case MulIdle => 0
      case AddLoop => if addCount <= width then width - addCount + 2 else 0
      case MulFinish => 1
    }

    constructor (width: nat)
      ensures Valid() && state == MulIdle && this.width == width
    {
      this.width := width;
      state, result, op1zext, op2zext, addCount := MulIdle, 0, 0, 0, 0;
      a, b := 0, 0;
    }

    method Clock(valid: bool, op1: nat, op2: nat)
      requires Valid() && op1 < Pow2(width) && op2 < Pow2(width)
      modifies this
      ensures Valid()
      ensures state == MulIdle <==> old(state) == MulFinish || (old(state) == MulIdle && !valid)
      ensures if old(state) == MulIdle && valid then a == op1 && b == op2 && Remaining() == width + 2
              else a == old(a) && b == old(b) && Remaining() == if old(Remaining()) == 0 then 0 else old(Remaining()) - 1
    {
      hide Times, Pow2, ShiftRight, Wrap;
      match state {
        case MulIdle =>
          if valid {
            state, result, addCount := AddLoop, 0, 0;
            op1zext, op2zext := op1, op2;
            a, b := op1, op2;
            MulStart(op1, op2);
          }
        case AddLoop =>
          if addCount == width {
            ShiftedOut(b, width);
            TimesIs(op1zext, 0);
            state := MulFinish;
          } else {
            AddStep(width, a, b, addCount, result);
            WrapSmall(2 * op1zext, 2 * width);
            if Bit(op2zext, addCount) {
              WrapSmall(result + op1zext, 2 * width);
              result := Wrap(result + op1zext, 2 * width);
            }
            op1zext := Wrap(2 * op1zext, 2 * width);
            addCount := addCount + 1;
          }
        case MulFinish =>
          state := MulIdle;
      }
    }
  }

  lemma MulStart(a: nat, b: nat)
    ensures ShiftRight(b, 0) == b && Times(a, Pow2(0)) == a
  {
  }

  /** One add step keeps `a * b == result + (a << k) * (b >> k)` and never overflows 2 * width bits. */
  lemma AddStep(width: nat, a: nat, b: nat, k: nat, result: nat)
    requires a < Pow2(width) && b < Pow2(width) && k < width
    requires Times(a, b) == result + Times(Times(a, Pow2(k)), ShiftRight(b, k))
    ensures
      var s := Times(a, Pow2(k));
      var result' := if Bit(b, k) then result + s else result;
      && result' < Pow2(2 * width)
      && 2 * s == Times(a, Pow2(k + 1)) && 2 * s < Pow2(2 * width)
      && Times(a, b) == result' + Times(Times(a, Pow2(k + 1)), ShiftRight(b, k + 1))
  {
    hide Times;
    var s, q := Times(a, Pow2(k)), ShiftRight(b, k);
    TimesSplit(s, q);
    TimesDouble(a, Pow2(k));
    ProductBound(a, b, width);
    ShiftedBound(a, k + 1, width);
  }

  lemma ShiftedBound(a: nat, k: nat, width: nat)
    requires a < Pow2(width) && k <= width
    ensures Times(a, Pow2(k)) < Pow2(2 * width)
  {
    hide Times, Pow2;
    Pow2Grows(k, width);
    Pow2Add(width, width);
    TimesIs(Pow2(width), Pow2(width));
    TimesStrict(a, Pow2(width), Pow2(k));
    TimesSwap(Pow2(width), Pow2(k));
    TimesMono(Pow2(k), Pow2(width), Pow2(width));
  }

  datatype DivState = DivIdle | ZeroCheck | SubLoop | DivFinish

  /** Restoring divider. */
  class DivUnit {
    const width: nat
    var state: DivState
    var quotient: nat
    var dividendSaved: nat
    var divisorSaved: nat
    var subCount: nat

    ghost var n: nat
    ghost var d: nat

    ghost predicate Valid()
      reads this
    {
      && 0 < width && n < Pow2(width) && d < Pow2(width) && subCount <= width && quotient < Pow2(width)
      && (state == ZeroCheck ==>
            subCount == 0 && quotient == 0 && dividendSaved == n && divisorSaved == Times(d, Pow2(width - 1)))
      && (state == SubLoop ==>
            && 0 < d
            && n == dividendSaved + Times(quotient, Times(d, Pow2(width - subCount)))
            && dividendSaved < Times(d, Pow2(width - subCount))
            && (subCount < width ==> divisorSaved == Times(d, Pow2(width - 1 - subCount))))
      && (state == DivFinish ==>
            if d == 0 then quotient == Pow2(width) - 1 && dividendSaved == n
            else n == dividendSaved + Times(quotient, d) && dividendSaved < d)
    }

    function Remaining(): nat
      reads this
    {
      match state
      case DivIdle => 0
      case ZeroCheck => width + 3
      case SubLoop => if subCount <= width then width - subCount + 2 else 0
      case DivFinish => 1
    }

    constructor (width: nat)
      requires 0 < width
      ensures Valid() && state == DivIdle && this.width == width
    {
      this.width := width;
      state, quotient, dividendSaved, divisorSaved, subCount := DivIdle, 0, 0, 0, 0;
      n, d := 0, 0;
    }

    method Clock(valid: bool, dividend: nat, divisor: nat)
      requires Valid() && dividend < Pow2(width) && divisor < Pow2(width)
      modifies this
      ensures Valid()
      ensures state == DivIdle <==> old(state) == DivFinish || (old(state) == DivIdle && !valid)
      ensures if old(state) == DivIdle && valid then n == dividend && d == divisor && Remaining() == width + 3
              else n == old(n) && d == old(d) && Remaining() <= old(Remaining())
                   && (0 < old(Remaining()) ==> Remaining() < old(Remaining()))
    {
      hide Times, Pow2, Wrap;
      match state {
        case DivIdle =>
          if valid {
            state, quotient, subCount := ZeroCheck, 0, 0;
            dividendSaved, divisorSaved := dividend, Times(divisor, Pow2(width - 1));
            n, d := dividend, divisor;
          }
        case ZeroCheck =>
          DivisorZero(d, width - 1);
          if divisorSaved == 0 {
            state, quotient := DivFinish, Pow2(width) - 1;
          } else {
            state := SubLoop;
            DivStart(width, n, d);
          }
        case SubLoop =>
          if subCount == width {
            DivEnd(d);
            state := DivFinish;
          } else {
            SubStep(width, n, d, subCount, dividendSaved, quotient);
            if divisorSaved <= dividendSaved {
              WrapSmall(2 * quotient + 1, width);
              dividendSaved := dividendSaved - divisorSaved;
              quotient := Wrap(2 * quotient + 1, width);
            } else {
              WrapSmall(2 * quotient, width);
              quotient := Wrap(2 * quotient, width);
            }
            divisorSaved := divisorSaved / 2;
            subCount := subCount + 1;
          }
        case DivFinish =>
          state := DivIdle;
      }
    }
  }

  lemma DivisorZero(d: nat, k: nat)
    ensures Times(d, Pow2(k)) == 0 <==> d == 0
  {
    TimesIs(d, Pow2(k));
    if d != 0 { TimesMono(1, d, Pow2(k)); }
  }

  lemma DivStart(width: nat, n: nat, d: nat)
    requires 0 < d && n < Pow2(width)
    ensures Times(0, Times(d, Pow2(width))) == 0 && n < Times(d, Pow2(width))
  {
    TimesMono(1, d, Pow2(width));
  }

  lemma DivEnd(d: nat)
    ensures Times(d, Pow2(0)) == d
  {
  }

  /** One trial subtraction: the remainder stays below the shifted divisor and no quotient bit is lost. */
  lemma SubStep(width: nat, n: nat, d: nat, k: nat, r: nat, q: nat)
    requires k < width && 0 < d && n < Pow2(width)
    requires n == r + Times(q, Times(d, Pow2(width - k))) && r < Times(d, Pow2(width - k))
    ensures
      var s := Times(d, Pow2(width - 1 - k));
      var q' := if s <= r then 2 * q + 1 else 2 * q;
      var r' := if s <= r then r - s else r;
      && n == r' + Times(q', s) && r' < s && q' < Pow2(width)
      && (k + 1 < width ==> s / 2 == Times(d, Pow2(width - 1 - (k + 1))))
  {
    hide Times;
    var s := Times(d, Pow2(width - 1 - k));
    TimesDouble(d, Pow2(width - 1 - k));
    TimesDouble(q, s);
    TimesPlusOne(2 * q, s);
    DivisorZero(d, width - 1 - k);
    var q' := if s <= r then 2 * q + 1 else 2 * q;
    TimesMono(1, s, q');
    TimesSwap(s, q');
    TimesIs(1, q');
    if k + 1 < width {
      TimesDouble(d, Pow2(width - 1 - (k + 1)));
    }
  }
}
