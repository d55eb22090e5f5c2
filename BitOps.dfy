/** Powers of two and the bit manipulation behind `extract_bits`, on
    non-negative integers of any size (Python integers do not wrap). */
module BitOps {

  function Pow2(n: nat): (r: nat)
    ensures r >= 1
  {
    if n == 0 then 1 else 2 * Pow2(n - 1)
  }

  /** Python's `a & b` on non-negative integers, one bit at a time from the
      least significant end. */
  function And(a: nat, b: nat): (r: nat)
    decreases a
    ensures r <= a && r <= b
  {
    if a == 0 || b == 0 then 0
    else 2 * And(a / 2, b / 2) + (if a % 2 == 1 && b % 2 == 1 then 1 else 0)
  }

  /** Python's `a << s`: `s` doublings. */
  function ShiftLeft(a: nat, s: nat): (r: nat)
    ensures r >= a
  {
    if s == 0 then a else 2 * ShiftLeft(a, s - 1)
  }

  /** Python's `a >> s` on a non-negative `a`: `s` halvings, each dropping
      the lowest bit. */
  function ShiftRight(a: nat, s: nat): (r: nat)
    ensures r <= a
  {
    if s == 0 then a else ShiftRight(a / 2, s - 1)
  }

  /** `extract_bits(number, start, n_bits)`: mask out the `n_bits` bits of
      `number` that begin at bit `start`, and shift them down to bit 0. */
  function ExtractBits(number: nat, start: nat, nBits: nat): nat
  {
    var mask := ShiftLeft(ShiftLeft(1, nBits) - 1, start);
    ShiftRight(And(number, mask), start)
  }

  /** Division with remainder is unique. */
  lemma DivModUnique(a: int, d: int, q: int, r: int)
    requires d > 0 && a == d * q + r && 0 <= r < d
    ensures a / d == q && a % d == r
  {
    var q', r' := a / d, a % d;
    var k := q - q';
    assert d * q == d * q' + d * k;
    assert d * k == r' - r;
    if k >= 1 {
      MulAtLeast(d, k);
    } else if k <= -1 {
      MulAtLeast(d, -k);
    }
  }

  lemma MulAtLeast(d: int, k: int)
    requires d > 0 && k >= 1
    ensures d * k >= d
  {
    assert d * k == d + d * (k - 1);
  }

  /** Halving first and then dividing by `p` is dividing by `2 * p`. */
  lemma HalveThenDivide(a: nat, p: nat)
    requires p > 0
    ensures a / (2 * p) == (a / 2) / p
  {
    HalveThenSplit(a, p);
  }

  /** The remainder by `2 * p` is assembled from the remainder of the half
      by `p` and the lowest bit. */
  lemma HalveThenMod(a: nat, p: nat)
    requires p > 0
    ensures a % (2 * p) == 2 * ((a / 2) % p) + a % 2
  {
    HalveThenSplit(a, p);
  }

  lemma HalveThenSplit(a: nat, p: nat)
    requires p > 0
    ensures a / (2 * p) == (a / 2) / p && a % (2 * p) == 2 * ((a / 2) % p) + a % 2
  {
    var q, r := a / 2, a % 2;
    var t, u := q / p, q % p;
    assert a == (2 * p) * t + (2 * u + r) by {
      assert a == 2 * q + r;
      assert q == p * t + u;
    }
    DivModUnique(a, 2 * p, t, 2 * u + r);
  }

  lemma DoubleProduct(x: int, p: int)
    ensures 2 * (x * p) == x * (2 * p)
  {
  }

  lemma {:induction false} ShiftLeftIsProduct(a: nat, s: nat)
    ensures ShiftLeft(a, s) == a * Pow2(s)
  {
    if s > 0 {
      ShiftLeftIsProduct(a, s - 1);
      DoubleProduct(a, Pow2(s - 1));
    }
  }

  lemma {:induction false} ShiftRightIsQuotient(a: nat, s: nat)
    ensures ShiftRight(a, s) == a / Pow2(s)
  {
    if s > 0 {
      ShiftRightIsQuotient(a / 2, s - 1);
      HalveThenDivide(a, Pow2(s - 1));
    }
  }

  /** Masking with an odd `2 * p - 1` keeps the lowest bit and masks the
      rest of `a` with `p - 1`. */
  lemma AndOddMask(a: nat, p: nat)
    requires a > 0 && p > 0
    ensures And(a, 2 * p - 1) == 2 * And(a / 2, p - 1) + a % 2
  {
    var m := 2 * p - 1;
    assert m / 2 == p - 1 && m % 2 == 1;
  }

  lemma Pow2Succ(n: nat)
    requires n > 0
    ensures Pow2(n) == 2 * Pow2(n - 1)
  {
  }

  /** The low mask `2^n - 1` keeps the remainder modulo `2^n`. */
  lemma {:induction false} AndLowMask(a: nat, n: nat)
    ensures And(a, Pow2(n) - 1) == a % Pow2(n)
  {
    if n == 0 {
      assert a % 1 == 0;
    } else if a == 0 {
      DivModUnique(0, Pow2(n), 0, 0);
    } else {
      var p := Pow2(n - 1);
      Pow2Succ(n);
      AndOddMask(a, p);
      AndLowMask(a / 2, n - 1);
      HalveThenMod(a, p);
    }
  }

  /** A mask shifted left by `s` selects the same bits of `a >> s`,
      shifted back up. */
  lemma {:induction false} AndShifted(a: nat, m: nat, s: nat)
    ensures And(a, ShiftLeft(m, s)) == ShiftLeft(And(ShiftRight(a, s), m), s)
  {
    if s > 0 {
      var b := ShiftLeft(m, s - 1);
      assert ShiftLeft(m, s) == 2 * b;
      AndShifted(a / 2, m, s - 1);
      if a > 0 && b > 0 {
        assert (2 * b) / 2 == b && (2 * b) % 2 == 0;
      } else if b == 0 {
        ZeroShifted(m, s - 1);
      }
    }
  }

  lemma {:induction false} ZeroShifted(m: nat, s: nat)
    requires ShiftLeft(m, s) == 0
    ensures m == 0
  {
    if s > 0 {
      ZeroShifted(m, s - 1);
    }
  }

  /** Shifting left and then right by the same amount changes nothing. */
  lemma {:induction false} ShiftRoundTrip(x: nat, s: nat)
    ensures ShiftRight(ShiftLeft(x, s), s) == x
  {
    if s > 0 {
      ShiftLeftIsProduct(x, s);
      ShiftRightIsQuotient(x * Pow2(s), s);
      DivModUnique(x * Pow2(s), Pow2(s), x, 0);
    }
  }

  lemma {:induction false} ShiftLeftOne(n: nat)
    ensures ShiftLeft(1, n) == Pow2(n)
  {
    if n > 0 {
      ShiftLeftOne(n - 1);
    }
  }

  /** The mask of `extract_bits` is the low mask of width `n_bits`
      shifted up to bit `start`. */
  lemma ExtractBitsMask(number: nat, start: nat, nBits: nat)
    ensures ExtractBits(number, start, nBits) == ShiftRight(And(number, ShiftLeft(Pow2(nBits) - 1, start)), start)
  {
    ShiftLeftOne(nBits);
  }

  /** Masking with `m << s` and shifting right by `s` is shifting first
      and masking with `m`. */
  lemma MaskThenShift(a: nat, m: nat, s: nat)
    ensures ShiftRight(And(a, ShiftLeft(m, s)), s) == And(ShiftRight(a, s), m)
  {
    var kept := And(ShiftRight(a, s), m);
    AndShifted(a, m, s);
    ShiftRoundTrip(kept, s);
  }

  /** `extract_bits` yields bits `start .. start + n_bits - 1` of `number`
      as a number: `(number >> start) mod 2^n_bits`, so below `2^n_bits`. */
  lemma ExtractBitsIsSlice(number: nat, start: nat, nBits: nat)
    ensures ExtractBits(number, start, nBits) == (number / Pow2(start)) % Pow2(nBits)
    ensures ExtractBits(number, start, nBits) < Pow2(nBits)
  {
    var shifted, low := ShiftRight(number, start), Pow2(nBits) - 1;
    ExtractBitsMask(number, start, nBits);
    MaskThenShift(number, low, start);
    AndLowMask(shifted, nBits);
    assert ExtractBits(number, start, nBits) == shifted % Pow2(nBits);
    ShiftRightIsQuotient(number, start);
  }
}
