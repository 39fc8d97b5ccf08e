/** Quotient and remainder are determined by each other. */
module Quotients {

  /** Division is determined by its result: quotient and remainder are unique. */
  lemma QuotientUnique(d: nat, n: int, q: int, r: int)
    requires 0 <= r < d && n == q * d + r
    ensures n / d == q && n % d == r
  {
    var q', r' := n / d, n % d;
    SameQuotient(d, q, r, q', r');
  }

  lemma SameQuotient(d: nat, q: int, r: int, q': int, r': int)
    requires 0 <= r < d && 0 <= r' < d && q * d + r == q' * d + r'
    ensures q == q'
  {
    if q < q' { ApartBy(d, q, q'); }
    if q' < q { ApartBy(d, q', q); }
  }

  lemma {:induction false} ApartBy(d: nat, p: int, q: int)
    requires p < q
    ensures p * d + d <= q * d
    decreases q - p
  {
    if p + 1 < q { ApartBy(d, p, q - 1); }
    assert (q - 1) * d + d == q * d;
  }

  /** Adding a multiple of the divisor only moves the quotient. */
  lemma Shifted(a: int, k: int, d: nat)
    requires 0 < d
    ensures (a + k * d) / d == a / d + k && (a + k * d) % d == a % d
  {
    var q, r := a / d, a % d;
    assert (q + k) * d == q * d + k * d;
    QuotientUnique(d, a + k * d, q + k, r);
  }

  /** A remainder by a multiple of d still has the remainder by d. */
  lemma RemainderOf(x: int, d: nat, e: nat)
    requires 0 < d && 0 < e && 0 < d * e
    ensures x % (d * e) % d == x % d
  {
    var q, r := x / (d * e), x % (d * e);
    assert x == q * (d * e) + r;
    assert q * (d * e) == (q * e) * d;
    Shifted(r, q * e, d);
  }
}

/** Powers of two and right shifts of unbounded naturals. */
module Powers {

  function Pow2(n: nat): (p: nat)
    ensures 0 < p
  {
    if n == 0 then 1 else 2 * Pow2(n - 1)
  }

  function ShiftRight(x: nat, n: nat): nat {
    if n == 0 then x else ShiftRight(x, n - 1) / 2
  }

  predicate Bit(x: nat, n: nat) { ShiftRight(x, n) % 2 == 1 }

  lemma {:induction false} Pow2Add(m: nat, n: nat)
    ensures Pow2(m + n) == Pow2(m) * Pow2(n)
  {
    if n != 0 {
      Pow2Add(m, n - 1);
      assert Pow2(m) * (2 * Pow2(n - 1)) == 2 * (Pow2(m) * Pow2(n - 1));
    }
  }

  lemma {:induction false} Pow2Grows(m: nat, n: nat)
    requires m <= n
    ensures Pow2(m) <= Pow2(n)
  {
    if m < n {
      Pow2Grows(m, n - 1);
    }
  }

  /** A value below 2^n is gone after n right shifts. */
  lemma {:induction false} ShiftedOut(x: nat, n: nat)
    requires x < Pow2(n)
    ensures ShiftRight(x, n) == 0
  {
    ShiftRightBound(x, n, n);
  }

  lemma {:induction false} ShiftRightBound(x: nat, n: nat, k: nat)
    requires x < Pow2(n) && k <= n
    ensures ShiftRight(x, k) < Pow2(n - k)
  {
    if k != 0 {
      ShiftRightBound(x, n, k - 1);
    }
  }

  /** A value as a register of `width` bits keeps it. */
  function Wrap(x: nat, width: nat): nat { x % Pow2(width) }

  lemma WrapSmall(x: nat, width: nat)
    requires x < Pow2(width)
    ensures Wrap(x, width) == x
  {
    hide Pow2;
  }

  /** Multiplication, named so that proofs can treat it as opaque. */
  function Times(a: nat, b: nat): (p: nat) { a * b }

  lemma TimesMono(a: nat, b: nat, c: nat)
    requires a <= b
    ensures Times(a, c) <= Times(b, c)
  {
    assert b * c == a * c + (b - a) * c;
  }

  lemma TimesStrict(a: nat, b: nat, c: nat)
    requires a < b && 0 < c
    ensures Times(a, c) < Times(b, c)
  {
    TimesMono(a + 1, b, c);
    assert (a + 1) * c == a * c + c;
  }

  lemma TimesSwap(a: nat, b: nat)
    ensures Times(a, b) == Times(b, a)
  {
  }

  /** Splitting the low bit off the second factor. */
  lemma TimesSplit(s: nat, q: nat)
    ensures Times(s, q) == Times(2 * s, q / 2) + (if q % 2 == 1 then s else 0)
  {
    var h, bit := q / 2, q % 2;
    assert s * (2 * h + bit) == s * (2 * h) + s * bit;
    assert s * (2 * h) == (2 * s) * h;
  }

  lemma TimesDouble(a: nat, b: nat)
    ensures Times(a, 2 * b) == 2 * Times(a, b)
    ensures Times(2 * a, b) == 2 * Times(a, b)
  {
  }

  lemma TimesPlusOne(a: nat, b: nat)
    ensures Times(a + 1, b) == Times(a, b) + b
  {
  }

  lemma ProductBound(a: nat, b: nat, width: nat)
    requires a < Pow2(width) && b < Pow2(width)
    ensures Times(a, b) < Pow2(2 * width)
  {
    hide Times;
    Pow2Add(width, width);
    assert Times(Pow2(width), Pow2(width)) == Pow2(2 * width) by { TimesIs(Pow2(width), Pow2(width)); }
    if b == 0 {
      TimesIs(a, 0);
    } else {
      TimesStrict(a, Pow2(width), b);
      TimesSwap(Pow2(width), b);
      TimesStrict(b, Pow2(width), Pow2(width));
    }
  }

  lemma TimesIs(a: nat, b: nat)
    ensures Times(a, b) == a * b
  {
  }
}
