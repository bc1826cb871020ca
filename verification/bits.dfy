/**
 The interpreter stores Python integers in its registers and memory, and those
 integers are unbounded and may be negative (a subtraction result is stored
 without reduction). Python's `&`, `|` and `^` act on such integers as if they
 were written in two's complement with infinitely many sign bits. This module
 models those operators exactly, together with the facts about masks that the
 decoder and the instruction handlers rely on.

 Throughout, Dafny's `a / 2^k` and `a % 2^k` (Euclidean, divisor positive) are
 Python's `a >> k` and `a & (2^k - 1)`.
 */
module Bits {

  function Pow2(k: nat): (r: nat)
    ensures r >= 1
  {
    if k == 0 then 1 else 2 * Pow2(k - 1)
  }

  datatype BitwiseOp = AndOp | OrOp | XorOp

  /** The operator applied to one pair of bits. */
  predicate Apply(op: BitwiseOp, p: bool, q: bool)
  {
    match op
    case AndOp => p && q
    case OrOp => p || q
    case XorOp => p != q
  }

  /** Distance of `a` from its sign-bit fixpoint: 0 for 0 and -1. */
  function Size(a: int): nat
  {
    if a >= 0 then a else -a - 1
  }

  lemma HalfShrinks(a: int)
    ensures Size(a / 2) <= Size(a)
    ensures Size(a) > 0 ==> Size(a / 2) < Size(a)
  {
  }

  /** Python's bitwise operator on two unbounded integers. Once both operands
      are 0 or -1 every higher bit repeats the sign bit. */
  function BitOp(op: BitwiseOp, a: int, b: int): int
    decreases Size(a) + Size(b)
  {
    if Size(a) == 0 && Size(b) == 0 then
      (if Apply(op, a == -1, b == -1) then -1 else 0)
    else
      HalfShrinks(a);
      HalfShrinks(b);
      2 * BitOp(op, a / 2, b / 2) + (if Apply(op, a % 2 == 1, b % 2 == 1) then 1 else 0)
  }

  function And(a: int, b: int): int { BitOp(AndOp, a, b) }
  function Or(a: int, b: int): int { BitOp(OrOp, a, b) }
  function Xor(a: int, b: int): int { BitOp(XorOp, a, b) }

  /** The low `k` bits of `a`: Python's `a & (2**k - 1)`. */
  function Mask(a: int, k: nat): (r: int)
    ensures 0 <= r < Pow2(k)
    ensures r == And(a, Pow2(k) - 1)
  {
    AndLow(a, k);
    a % Pow2(k)
  }

  /** The recursive step of `BitOp` also holds at the fixpoints 0 and -1. */
  lemma Unfold(op: BitwiseOp, a: int, b: int)
    ensures BitOp(op, a, b)
         == 2 * BitOp(op, a / 2, b / 2) + (if Apply(op, a % 2 == 1, b % 2 == 1) then 1 else 0)
  {
  }

  /** Uniqueness of Euclidean division. */
  lemma DivModUnique(a: int, d: int, q: int, r: int)
    requires d > 0 && a == d * q + r && 0 <= r < d
    ensures a / d == q && a % d == r
  {
    var q0, r0 := a / d, a % d;
    assert d * (q - q0) == r0 - r;
    if q > q0 {
      MulAtLeast(d, q - q0);
    } else if q < q0 {
      MulAtLeast(d, q0 - q);
    }
  }

  lemma MulDouble(q: int, p: int)
    ensures 2 * (q * p) == q * (2 * p)
  {
  }

  lemma MulAtLeast(d: int, t: int)
    requires d > 0 && t >= 1
    ensures d * t >= d
  {
  }

  /** Halving first and then dividing by `p` is dividing by `2 * p`. */
  lemma DivHalf(a: int, p: int)
    requires p > 0
    ensures (a / 2) / p == a / (2 * p)
    ensures (a % (2 * p)) / 2 == (a / 2) % p
    ensures (a % (2 * p)) % 2 == a % 2
  {
    var q, r := a / 2, a % 2;
    var s, t := q / p, q % p;
    assert a == (2 * p) * s + (2 * t + r);
    DivModUnique(a, 2 * p, s, 2 * t + r);
  }

  /** `a & (2**k - 1) == a mod 2**k`. */
  lemma {:induction false} AndLow(a: int, k: nat)
    ensures And(a, Pow2(k) - 1) == a % Pow2(k)
    decreases k, Size(a)
  {
    if k == 0 {
      assert Size(0) == 0;
      if Size(a) == 0 {
      } else {
        Unfold(AndOp, a, 0);
        HalfShrinks(a);
        AndLow(a / 2, 0);
      }
    } else {
      var p := Pow2(k - 1);
      assert (2 * p - 1) / 2 == p - 1 && (2 * p - 1) % 2 == 1;
      Unfold(AndOp, a, 2 * p - 1);
      AndLow(a / 2, k - 1);
      DivHalf(a, p);
      DivModUnique(a % (2 * p), 2, (a / 2) % p, a % 2);
    }
  }

  /** A mask made of a high part `c` shifted left by `k` and a low part `d`
      below bit `k` splits the operand at bit `k`. */
  lemma {:induction false} AndSplit(a: int, c: int, d: int, k: nat)
    requires 0 <= d < Pow2(k)
    ensures And(a, c * Pow2(k) + d) == And(a / Pow2(k), c) * Pow2(k) + And(a % Pow2(k), d)
    decreases k
  {
    if k == 0 {
      assert d == 0;
      assert a % 1 == 0 && a / 1 == a;
      assert And(0, 0) == 0;
    } else {
      var p, bigP := Pow2(k - 1), Pow2(k);
      assert bigP == 2 * p;
      var b := c * bigP + d;
      assert c * bigP == 2 * (c * p);
      assert b == 2 * (c * p + d / 2) + d % 2;
      DivModUnique(b, 2, c * p + d / 2, d % 2);
      var bit := if Apply(AndOp, a % 2 == 1, d % 2 == 1) then 1 else 0;
      Unfold(AndOp, a, b);
      assert And(a, b) == 2 * And(a / 2, c * p + d / 2) + bit;
      AndSplit(a / 2, c, d / 2, k - 1);
      DivHalf(a, p);
      var q := And(a / bigP, c);
      var low := And((a / 2) % p, d / 2);
      assert And(a / 2, c * p + d / 2) == q * p + low;
      Unfold(AndOp, a % bigP, d);
      assert And(a % bigP, d) == 2 * low + bit;
      MulDouble(q, p);
    }
  }

  /** `a | 0 == a`. */
  lemma {:induction false} OrZero(a: int)
    ensures Or(a, 0) == a
    decreases Size(a)
  {
    if Size(a) != 0 {
      Unfold(OrOp, a, 0);
      HalfShrinks(a);
      OrZero(a / 2);
    }
  }

  /** `(a << k) | d == a * 2**k + d` when `d` fits below bit `k`. */
  lemma {:induction false} OrShifted(a: int, d: int, k: nat)
    requires 0 <= d < Pow2(k)
    ensures Or(a * Pow2(k), d) == a * Pow2(k) + d
  {
    if k == 0 {
      assert d == 0;
      OrZero(a);
    } else {
      var p := Pow2(k - 1);
      var b := a * Pow2(k);
      assert b == 2 * (a * p);
      DivModUnique(b, 2, a * p, 0);
      Unfold(OrOp, b, d);
      OrShifted(a, d / 2, k - 1);
    }
  }

  /** On operands that fit in `k` bits, every operator stays within `k` bits. */
  lemma {:induction false} BitOpBounded(op: BitwiseOp, a: int, b: int, k: nat)
    requires 0 <= a < Pow2(k) && 0 <= b < Pow2(k)
    ensures 0 <= BitOp(op, a, b) < Pow2(k)
  {
    if Size(a) == 0 && Size(b) == 0 {
      assert a == 0 && b == 0;
    } else {
      assert k > 0;
      BitOpBounded(op, a / 2, b / 2, k - 1);
    }
  }

  /** Bit `k` of `a`, Python's `(a >> k) & 1 == 1`. */
  predicate Bit(a: int, k: nat)
  {
    (a / Pow2(k)) % 2 == 1
  }

  /** Every bit of the result is the operator applied to the operands' bits
      in the same position. */
  lemma {:induction false} BitOpBit(op: BitwiseOp, a: int, b: int, k: nat)
    ensures Bit(BitOp(op, a, b), k) <==> Apply(op, Bit(a, k), Bit(b, k))
    decreases k
  {
    var c := BitOp(op, a, b);
    Unfold(op, a, b);
    DivModUnique(c, 2, BitOp(op, a / 2, b / 2), if Apply(op, a % 2 == 1, b % 2 == 1) then 1 else 0);
    if k > 0 {
      BitOpBit(op, a / 2, b / 2, k - 1);
      DivHalf(c, Pow2(k - 1));
      DivHalf(a, Pow2(k - 1));
      DivHalf(b, Pow2(k - 1));
    }
  }

  /** The constants the interpreter's masks are built from. */
  lemma Pow2Values()
    ensures Pow2(1) == 2 && Pow2(4) == 16 && Pow2(7) == 128
    ensures Pow2(8) == 256 && Pow2(12) == 4096
  {
  }

  /** `b ^ 1` flips a pixel held as 0 or 1. */
  lemma XorOneFlips(b: int)
    requires b == 0 || b == 1
    ensures Xor(b, 1) == 1 - b
  {
    Unfold(XorOp, b, 1);
    assert Xor(0, 0) == 0;
  }
}
