/**
 What the register handlers of family 7 and 8 compute (chip8/base.py,
 `_7xkk` and `_8xy0` .. `_8xyE`), stated as arithmetic on the register values
 rather than as the masks and shifts the handlers apply.

 Registers hold Python integers. The masked handlers (ADD, SHR, SHL) always
 leave a byte; SUB and SUBN store the plain difference, which may be negative.
 When `x` is VF itself the handler's second write overwrites the flag, which
 the `...IntoFlag` lemmas record.
 */
module Arithmetic {
  import Bits
  import opened State
  import opened Decoder
  import opened Interpreter

  /** Registers other than `x` and VF keep their values. */
  predicate OthersKept(before: Registers, after: Registers, x: Nibble)
  {
    forall j :: 0 <= j < RegisterCount && j != x && j != VF ==> after[j] == before[j]
  }

  /** ADD Vx, Vy: the low byte of the sum goes to Vx and the carry to VF; for
      byte operands, carry and result together are the full sum. */
  lemma AddRegSpec(m: Machine, x: Nibble, y: Nibble, keys: seq<int>, rnd: int)
    requires x != VF
    ensures Execute(m, AddReg(x, y), keys, rnd).Ok?
    ensures var r := Execute(m, AddReg(x, y), keys, rnd).value;
      && r == m.(V := r.V)
      && r.V[x] == (m.V[x] + m.V[y]) % 0x100
      && (r.V[VF] == 1 <==> m.V[x] + m.V[y] > 0xFF)
      && (r.V[VF] == 0 <==> m.V[x] + m.V[y] <= 0xFF)
      && OthersKept(m.V, r.V, x)
      && (0 <= m.V[x] < 0x100 && 0 <= m.V[y] < 0x100 ==> r.V[x] + 0x100 * r.V[VF] == m.V[x] + m.V[y])
  {
    Bits.Pow2Values();
  }

  /** ADD VF, Vy: the sum's low byte replaces the carry just written. */
  lemma AddRegIntoFlag(m: Machine, y: Nibble, keys: seq<int>, rnd: int)
    ensures Execute(m, AddReg(VF, y), keys, rnd)
         == Ok(m.(V := m.V[VF := (m.V[VF] + m.V[y]) % 0x100]))
  {
    Bits.Pow2Values();
    var sum := m.V[VF] + m.V[y];
    var V1 := m.V[VF := Flag(sum > 0xFF)];
    assert V1[VF := Bits.Mask(sum, 8)] == m.V[VF := sum % 0x100];
  }

  /** ADD Vx, byte: Vx wraps around modulo 256 and VF is left alone. */
  lemma AddByteSpec(m: Machine, x: Nibble, kk: Byte, keys: seq<int>, rnd: int)
    ensures Execute(m, AddByte(x, kk), keys, rnd).Ok?
    ensures var r := Execute(m, AddByte(x, kk), keys, rnd).value;
      && r == m.(V := r.V)
      && r.V[x] == (m.V[x] + kk) % 0x100
      && (x != VF ==> r.V[VF] == m.V[VF])
      && OthersKept(m.V, r.V, x)
      && (0 <= m.V[x] < 0x100 ==> r.V[x] == if m.V[x] + kk < 0x100 then m.V[x] + kk else m.V[x] + kk - 0x100)
  {
    Bits.Pow2Values();
  }

  /** SUB Vx, Vy: VF is 1 exactly when Vx > Vy, and Vx receives the exact
      difference, unreduced, so adding Vy back gives the old Vx. */
  lemma SubRegSpec(m: Machine, x: Nibble, y: Nibble, keys: seq<int>, rnd: int)
    requires x != VF
    ensures Execute(m, SubReg(x, y), keys, rnd).Ok?
    ensures var r := Execute(m, SubReg(x, y), keys, rnd).value;
      && r == m.(V := r.V)
      && r.V[x] + m.V[y] == m.V[x]
      && (r.V[VF] == 1 <==> m.V[x] > m.V[y])
      && (r.V[VF] == 0 <==> m.V[x] <= m.V[y])
      && OthersKept(m.V, r.V, x)
  {
  }

  /** SUBN Vx, Vy: VF is 1 exactly when Vy > Vx, and Vx receives Vy - Vx,
      unreduced. */
  lemma SubnRegSpec(m: Machine, x: Nibble, y: Nibble, keys: seq<int>, rnd: int)
    requires x != VF
    ensures Execute(m, SubnReg(x, y), keys, rnd).Ok?
    ensures var r := Execute(m, SubnReg(x, y), keys, rnd).value;
      && r == m.(V := r.V)
      && r.V[x] + m.V[x] == m.V[y]
      && (r.V[VF] == 1 <==> m.V[y] > m.V[x])
      && (r.V[VF] == 0 <==> m.V[y] <= m.V[x])
      && OthersKept(m.V, r.V, x)
  {
  }

  /** SUB VF, Vy and SUBN VF, Vy write the flag first and the difference
      last, so VF ends up holding the difference. */
  lemma SubIntoFlag(m: Machine, y: Nibble, keys: seq<int>, rnd: int)
    ensures Execute(m, SubReg(VF, y), keys, rnd) == Ok(m.(V := m.V[VF := m.V[VF] - m.V[y]]))
    ensures Execute(m, SubnReg(VF, y), keys, rnd) == Ok(m.(V := m.V[VF := m.V[y] - m.V[VF]]))
  {
    var d := m.V[VF] - m.V[y];
    assert m.V[VF := Flag(d > 0)][VF := d] == m.V[VF := d];
    var e := m.V[y] - m.V[VF];
    assert m.V[VF := Flag(e > 0)][VF := e] == m.V[VF := e];
  }

  /** Subtracting a larger byte from a smaller one leaves a register outside
      the byte range: SUB does not wrap around. */
  lemma SubLeavesByteRange(m: Machine, x: Nibble, y: Nibble, keys: seq<int>, rnd: int)
    requires x != VF && 0 <= m.V[x] < m.V[y] < 0x100
    ensures Execute(m, SubReg(x, y), keys, rnd).Ok?
    ensures -0x100 < Execute(m, SubReg(x, y), keys, rnd).value.V[x] < 0
    ensures Execute(m, SubnReg(y, x), keys, rnd).Ok?
    ensures var r := Execute(m, SubnReg(y, x), keys, rnd).value.V;
      y != VF ==> -0x100 < r[y] < 0
  {
  }

  /** SHR Vx: VF is the bit shifted out and Vx the halved value as a byte; for
      a byte, halving and the bit recover the old value. */
  lemma ShrSpec(m: Machine, x: Nibble, y: Nibble, keys: seq<int>, rnd: int)
    requires x != VF
    ensures Execute(m, Shr(x, y), keys, rnd).Ok?
    ensures var r := Execute(m, Shr(x, y), keys, rnd).value;
      && r == m.(V := r.V)
      && r.V[VF] == m.V[x] % 2
      && r.V[x] == (m.V[x] / 2) % 0x100
      && 0 <= r.V[x] < 0x100
      && OthersKept(m.V, r.V, x)
      && (0 <= m.V[x] < 0x100 ==> 2 * r.V[x] + r.V[VF] == m.V[x])
  {
    Bits.Pow2Values();
    Bits.AndLow(m.V[x], 1);
  }

  /** SHL Vx: VF is bit 7 and Vx the doubled value as a byte; for a byte, the
      result and the flag together are the doubled value. */
  lemma ShlSpec(m: Machine, x: Nibble, y: Nibble, keys: seq<int>, rnd: int)
    requires x != VF
    ensures Execute(m, Shl(x, y), keys, rnd).Ok?
    ensures var r := Execute(m, Shl(x, y), keys, rnd).value;
      && r == m.(V := r.V)
      && r.V[VF] == (m.V[x] / 0x80) % 2
      && r.V[x] == (2 * m.V[x]) % 0x100
      && 0 <= r.V[x] < 0x100
      && OthersKept(m.V, r.V, x)
      && (0 <= m.V[x] < 0x100 ==> r.V[x] + 0x100 * r.V[VF] == 2 * m.V[x])
  {
    Bits.Pow2Values();
    Bits.AndLow(m.V[x] / 0x80, 1);
  }

  /** SHR VF and SHL VF shift the flag they have just written. */
  lemma ShiftIntoFlag(m: Machine, y: Nibble, keys: seq<int>, rnd: int)
    ensures Execute(m, Shr(VF, y), keys, rnd) == Ok(m.(V := m.V[VF := 0]))
    ensures Execute(m, Shl(VF, y), keys, rnd)
         == Ok(m.(V := m.V[VF := 2 * ((m.V[VF] / 0x80) % 2)]))
  {
    Bits.Pow2Values();
    Bits.AndLow(m.V[VF], 1);
    Bits.AndLow(m.V[VF] / 0x80, 1);
    var low := Bits.And(m.V[VF], 1);
    assert m.V[VF := low][VF := Bits.Mask(low / 2, 8)] == m.V[VF := 0];
    var high := Bits.And(m.V[VF] / 0x80, 1);
    assert m.V[VF := high][VF := Bits.Mask(high * 2, 8)] == m.V[VF := 2 * high];
  }

  /** OR, AND and XOR store Python's `|`, `&` and `^` of Vx and Vy in Vx and
      leave every other register alone, whatever integers the registers hold;
      on two bytes the result is a byte. */
  lemma LogicKeepsBytes(m: Machine, x: Nibble, y: Nibble, keys: seq<int>, rnd: int)
    ensures Execute(m, OrReg(x, y), keys, rnd) == Ok(m.(V := m.V[x := Bits.Or(m.V[x], m.V[y])]))
    ensures Execute(m, AndReg(x, y), keys, rnd) == Ok(m.(V := m.V[x := Bits.And(m.V[x], m.V[y])]))
    ensures Execute(m, XorReg(x, y), keys, rnd) == Ok(m.(V := m.V[x := Bits.Xor(m.V[x], m.V[y])]))
    ensures 0 <= m.V[x] < 0x100 && 0 <= m.V[y] < 0x100 ==>
              forall i :: i in {OrReg(x, y), AndReg(x, y), XorReg(x, y)} ==>
                0 <= Execute(m, i, keys, rnd).value.V[x] < 0x100
  {
    if 0 <= m.V[x] < 0x100 && 0 <= m.V[y] < 0x100 {
      Bits.Pow2Values();
      Bits.BitOpBounded(Bits.OrOp, m.V[x], m.V[y], 8);
      Bits.BitOpBounded(Bits.AndOp, m.V[x], m.V[y], 8);
      Bits.BitOpBounded(Bits.XorOp, m.V[x], m.V[y], 8);
    }
  }

  /** Bit k of Vx after OR, AND and XOR is the or, and, exclusive or of bit k
      of Vx and Vy, for any integers the registers hold. */
  lemma LogicBitwise(m: Machine, x: Nibble, y: Nibble, k: nat, keys: seq<int>, rnd: int)
    ensures Execute(m, OrReg(x, y), keys, rnd).Ok?
    ensures Bits.Bit(Execute(m, OrReg(x, y), keys, rnd).value.V[x], k)
        <==> Bits.Bit(m.V[x], k) || Bits.Bit(m.V[y], k)
    ensures Execute(m, AndReg(x, y), keys, rnd).Ok?
    ensures Bits.Bit(Execute(m, AndReg(x, y), keys, rnd).value.V[x], k)
        <==> Bits.Bit(m.V[x], k) && Bits.Bit(m.V[y], k)
    ensures Execute(m, XorReg(x, y), keys, rnd).Ok?
    ensures Bits.Bit(Execute(m, XorReg(x, y), keys, rnd).value.V[x], k)
        <==> Bits.Bit(m.V[x], k) != Bits.Bit(m.V[y], k)
  {
    Bits.BitOpBit(Bits.OrOp, m.V[x], m.V[y], k);
    Bits.BitOpBit(Bits.AndOp, m.V[x], m.V[y], k);
    Bits.BitOpBit(Bits.XorOp, m.V[x], m.V[y], k);
  }

  /** RND Vx, byte with a random byte: Vx is `rnd & kk`, a byte. */
  lemma RndSpec(m: Machine, x: Nibble, kk: Byte, keys: seq<int>, rnd: int)
    requires 0 <= rnd < 0x100
    ensures Execute(m, Rnd(x, kk), keys, rnd) == Ok(m.(V := m.V[x := Bits.And(rnd, kk)]))
    ensures 0 <= Bits.And(rnd, kk) < 0x100
  {
    Bits.Pow2Values();
    Bits.BitOpBounded(Bits.AndOp, rnd, kk, 8);
    var a := Bits.And(rnd, kk);
    assert Bits.Mask(a, 8) == a % 0x100 == a;
  }
}
