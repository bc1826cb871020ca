/**
 Instruction words and their decoding (chip8/base.py, `_process_op_code` and
 the handlers it reaches). A word is whatever `process_op_code` assembled from
 two memory cells, so it is an arbitrary Python integer; only its low sixteen
 bits matter, because every mask the interpreter applies lies below bit 16.

 `Decode` is a total function from words to instructions. The table walk the
 interpreter actually performs is modelled separately in module `Dispatch`,
 which proves that the two agree.
 */
module Decoder {
  import Bits

  type Nibble = n: int | 0 <= n < 16
  type Byte = n: int | 0 <= n < 0x100
  type Address = n: int | 0 <= n < 0x1000

  /** `op & 0xF000`, shifted down. */
  function Family(w: int): Nibble { (w / 0x1000) % 16 }
  /** `(op & 0x0F00) >> 8`. */
  function X(w: int): Nibble { (w / 0x100) % 16 }
  /** `(op & 0x00F0) >> 4`. */
  function Y(w: int): Nibble { (w / 0x10) % 16 }
  /** `op & 0x000F`. */
  function N(w: int): Nibble { w % 16 }
  /** `op & 0x00FF`. */
  function Kk(w: int): Byte { w % 0x100 }
  /** `op & 0x0FFF`. */
  function Nnn(w: int): Address { w % 0x1000 }

  datatype Instr =
    | Sys(nnn: Address)                   // 0nnn, reached only by 0x?00 words
    | Cls                                 // 00E0
    | Ret                                 // 00EE
    | Jp(nnn: Address)                    // 1nnn
    | Call(nnn: Address)                  // 2nnn
    | SeByte(x: Nibble, kk: Byte)         // 3xkk
    | SneByte(x: Nibble, kk: Byte)        // 4xkk
    | SeReg(x: Nibble, y: Nibble)         // 5xy?, any low nibble
    | LdByte(x: Nibble, kk: Byte)         // 6xkk
    | AddByte(x: Nibble, kk: Byte)        // 7xkk
    | LdReg(x: Nibble, y: Nibble)         // 8xy0
    | OrReg(x: Nibble, y: Nibble)         // 8xy1
    | AndReg(x: Nibble, y: Nibble)        // 8xy2
    | XorReg(x: Nibble, y: Nibble)        // 8xy3
    | AddReg(x: Nibble, y: Nibble)        // 8xy4
    | SubReg(x: Nibble, y: Nibble)        // 8xy5
    | Shr(x: Nibble, y: Nibble)           // 8xy6
    | SubnReg(x: Nibble, y: Nibble)       // 8xy7
    | Shl(x: Nibble, y: Nibble)           // 8xyE
    | SneReg(x: Nibble, y: Nibble)        // 9xy?, any low nibble
    | LdI(nnn: Address)                   // Annn
    | JpV0(nnn: Address)                  // Bnnn
    | Rnd(x: Nibble, kk: Byte)            // Cxkk
    | Drw(x: Nibble, y: Nibble, n: Nibble) // Dxyn
    | Skp(x: Nibble)                      // Ex9E
    | Sknp(x: Nibble)                     // ExA1
    | LdVxDt(x: Nibble)                   // Fx07
    | LdVxK(x: Nibble)                    // Fx0A
    | LdDtVx(x: Nibble)                   // Fx15
    | LdStVx(x: Nibble)                   // Fx18
    | AddI(x: Nibble)                     // Fx1E
    | LdF(x: Nibble)                      // Fx29
    | LdB(x: Nibble)                      // Fx33
    | StoreRegs(x: Nibble)                // Fx55
    | LoadRegs(x: Nibble)                 // Fx65
    | Unknown                             // falls to `unknown_op_code`
    | Diverge                             // Ex00 / Fx00: the sub-dispatcher calls itself forever

  /** The handler an instruction word reaches, given its four nibbles. */
  function DecodeNibbles(f: Nibble, x: Nibble, y: Nibble, n: Nibble): Instr
  {
    var kk: Byte := y * 0x10 + n;
    var nnn: Address := x * 0x100 + kk;
    match f
    case 0x0 =>
      if kk == 0x00 then Sys(nnn)
      else if kk == 0xE0 then Cls
      else if kk == 0xEE then Ret
      else Unknown
    case 0x1 => Jp(nnn)
    case 0x2 => Call(nnn)
    case 0x3 => SeByte(x, kk)
    case 0x4 => SneByte(x, kk)
    case 0x5 => SeReg(x, y)
    case 0x6 => LdByte(x, kk)
    case 0x7 => AddByte(x, kk)
    case 0x8 =>
      (match n
       case 0x0 => LdReg(x, y)
       case 0x1 => OrReg(x, y)
       case 0x2 => AndReg(x, y)
       case 0x3 => XorReg(x, y)
       case 0x4 => AddReg(x, y)
       case 0x5 => SubReg(x, y)
       case 0x6 => Shr(x, y)
       case 0x7 => SubnReg(x, y)
       case 0xE => Shl(x, y)
       case _ => Unknown)
    case 0x9 => SneReg(x, y)
    case 0xA => LdI(nnn)
    case 0xB => JpV0(nnn)
    case 0xC => Rnd(x, kk)
    case 0xD => Drw(x, y, n)
    case 0xE =>
      if kk == 0x9E then Skp(x)
      else if kk == 0xA1 then Sknp(x)
      else if kk == 0x00 then Diverge
      else Unknown
    case _ => // family 0xF
      (match kk
       case 0x00 => Diverge
       case 0x07 => LdVxDt(x)
       case 0x0A => LdVxK(x)
       case 0x15 => LdDtVx(x)
       case 0x18 => LdStVx(x)
       case 0x1E => AddI(x)
       case 0x29 => LdF(x)
       case 0x33 => LdB(x)
       case 0x55 => StoreRegs(x)
       case 0x65 => LoadRegs(x)
       case _ => Unknown)
  }

  function Decode(w: int): Instr
  {
    DecodeNibbles(Family(w), X(w), Y(w), N(w))
  }

  /** The byte and address fields are made of the nibbles. */
  lemma FieldParts(w: int)
    ensures Kk(w) == Y(w) * 0x10 + N(w)
    ensures Nnn(w) == X(w) * 0x100 + Kk(w)
  {
    Bits.DivModUnique(w % 0x100, 0x10, (w / 0x10) % 0x10, w % 0x10);
    Bits.DivModUnique(w % 0x1000, 0x100, (w / 0x100) % 0x10, w % 0x100);
  }

  /** A word with the given nibbles. */
  function Word(f: Nibble, x: Nibble, y: Nibble, n: Nibble): int
  {
    f * 0x1000 + x * 0x100 + y * 0x10 + n
  }

  /** The nibbles of `Word` come back out of the field accessors. */
  lemma WordFields(f: Nibble, x: Nibble, y: Nibble, n: Nibble)
    ensures var w := Word(f, x, y, n);
      Family(w) == f && X(w) == x && Y(w) == y && N(w) == n
      && Kk(w) == y * 0x10 + n && Nnn(w) == x * 0x100 + y * 0x10 + n
  {
    var w := Word(f, x, y, n);
    Bits.DivModUnique(w, 0x1000, f, x * 0x100 + y * 0x10 + n);
    Bits.DivModUnique(w, 0x100, f * 0x10 + x, y * 0x10 + n);
    Bits.DivModUnique(w, 0x10, f * 0x100 + x * 0x10 + y, n);
    Bits.DivModUnique(f * 0x10 + x, 0x10, f, x);
    Bits.DivModUnique(f * 0x100 + x * 0x10 + y, 0x10, f * 0x10 + x, y);
  }

  /** The canonical word of an instruction, as an assembler would write it. */
  function Encode(i: Instr): (w: int)
    ensures 0 <= w < 0x10000
  {
    match i
    case Sys(nnn) => Word(0x0, nnn / 0x100, (nnn / 0x10) % 0x10, nnn % 0x10)
    case Cls => Word(0x0, 0, 0xE, 0x0)
    case Ret => Word(0x0, 0, 0xE, 0xE)
    case Jp(nnn) => Word(0x1, nnn / 0x100, (nnn / 0x10) % 0x10, nnn % 0x10)
    case Call(nnn) => Word(0x2, nnn / 0x100, (nnn / 0x10) % 0x10, nnn % 0x10)
    case SeByte(x, kk) => Word(0x3, x, kk / 0x10, kk % 0x10)
    case SneByte(x, kk) => Word(0x4, x, kk / 0x10, kk % 0x10)
    case SeReg(x, y) => Word(0x5, x, y, 0x0)
    case LdByte(x, kk) => Word(0x6, x, kk / 0x10, kk % 0x10)
    case AddByte(x, kk) => Word(0x7, x, kk / 0x10, kk % 0x10)
    case LdReg(x, y) => Word(0x8, x, y, 0x0)
    case OrReg(x, y) => Word(0x8, x, y, 0x1)
    case AndReg(x, y) => Word(0x8, x, y, 0x2)
    case XorReg(x, y) => Word(0x8, x, y, 0x3)
    case AddReg(x, y) => Word(0x8, x, y, 0x4)
    case SubReg(x, y) => Word(0x8, x, y, 0x5)
    case Shr(x, y) => Word(0x8, x, y, 0x6)
    case SubnReg(x, y) => Word(0x8, x, y, 0x7)
    case Shl(x, y) => Word(0x8, x, y, 0xE)
    case SneReg(x, y) => Word(0x9, x, y, 0x0)
    case LdI(nnn) => Word(0xA, nnn / 0x100, (nnn / 0x10) % 0x10, nnn % 0x10)
    case JpV0(nnn) => Word(0xB, nnn / 0x100, (nnn / 0x10) % 0x10, nnn % 0x10)
    case Rnd(x, kk) => Word(0xC, x, kk / 0x10, kk % 0x10)
    case Drw(x, y, n) => Word(0xD, x, y, n)
    case Skp(x) => Word(0xE, x, 0x9, 0xE)
    case Sknp(x) => Word(0xE, x, 0xA, 0x1)
    case LdVxDt(x) => Word(0xF, x, 0x0, 0x7)
    case LdVxK(x) => Word(0xF, x, 0x0, 0xA)
    case LdDtVx(x) => Word(0xF, x, 0x1, 0x5)
    case LdStVx(x) => Word(0xF, x, 0x1, 0x8)
    case AddI(x) => Word(0xF, x, 0x1, 0xE)
    case LdF(x) => Word(0xF, x, 0x2, 0x9)
    case LdB(x) => Word(0xF, x, 0x3, 0x3)
    case StoreRegs(x) => Word(0xF, x, 0x5, 0x5)
    case LoadRegs(x) => Word(0xF, x, 0x6, 0x5)
    case Unknown => Word(0x0, 0, 0x0, 0x1)
    case Diverge => Word(0xE, 0, 0x0, 0x0)
  }

  /** Only words whose low byte is zero reach SYS, so its target is a
      multiple of 0x100; every other instruction is reachable as is. */
  predicate Reachable(i: Instr)
  {
    i.Sys? ==> i.nnn % 0x100 == 0
  }

  /** Every instruction the decoder can produce is recovered from its canonical
      word, and those are exactly the instructions it produces. */
  lemma {:induction false} DecodeEncode(i: Instr)
    ensures Reachable(i) ==> Decode(Encode(i)) == i
    ensures Reachable(Decode(Encode(i)))
  {
    var w := Encode(i);
    var f, x, y, n := EncodedNibbles(i);
    WordFields(f, x, y, n);
    assert Decode(w) == DecodeNibbles(f, x, y, n);
  }

  /** The nibbles `Encode` packs, and `i` rebuilt from them where it is
      reachable. */
  lemma EncodedNibbles(i: Instr) returns (f: Nibble, x: Nibble, y: Nibble, n: Nibble)
    ensures Encode(i) == Word(f, x, y, n)
    ensures Reachable(i) ==> DecodeNibbles(f, x, y, n) == i
    ensures Reachable(DecodeNibbles(f, x, y, n))
  {
    if i.Sys? || i.Cls? || i.Ret? || i.Jp? || i.Call? || i.LdI? || i.JpV0? || i.Unknown? {
      f, x, y, n := AddressFormNibbles(i);
    } else if i.SeByte? || i.SneByte? || i.LdByte? || i.AddByte? || i.Rnd? || i.SeReg? || i.SneReg? || i.Drw? {
      f, x, y, n := OperandNibbles(i);
    } else if i.LdReg? || i.OrReg? || i.AndReg? || i.XorReg? || i.AddReg? || i.SubReg? || i.Shr? || i.SubnReg? || i.Shl? {
      f, x, y, n := ArithmeticNibbles(i);
    } else {
      f, x, y, n := KeyedNibbles(i);
    }
  }

  lemma AddressFormNibbles(i: Instr) returns (f: Nibble, x: Nibble, y: Nibble, n: Nibble)
    requires i.Sys? || i.Cls? || i.Ret? || i.Jp? || i.Call? || i.LdI? || i.JpV0? || i.Unknown?
    ensures Encode(i) == Word(f, x, y, n)
    ensures Reachable(i) ==> DecodeNibbles(f, x, y, n) == i
    ensures Reachable(DecodeNibbles(f, x, y, n))
  {
    match i
    case Sys(nnn) =>
      AddressNibbles(nnn);
      f, x, y, n := 0x0, nnn / 0x100, (nnn / 0x10) % 0x10, nnn % 0x10;
    case Cls => f, x, y, n := 0x0, 0, 0xE, 0x0;
    case Ret => f, x, y, n := 0x0, 0, 0xE, 0xE;
    case Jp(nnn) =>
      AddressNibbles(nnn);
      f, x, y, n := 0x1, nnn / 0x100, (nnn / 0x10) % 0x10, nnn % 0x10;
    case Call(nnn) =>
      AddressNibbles(nnn);
      f, x, y, n := 0x2, nnn / 0x100, (nnn / 0x10) % 0x10, nnn % 0x10;
    case LdI(nnn) =>
      AddressNibbles(nnn);
      f, x, y, n := 0xA, nnn / 0x100, (nnn / 0x10) % 0x10, nnn % 0x10;
    case JpV0(nnn) =>
      AddressNibbles(nnn);
      f, x, y, n := 0xB, nnn / 0x100, (nnn / 0x10) % 0x10, nnn % 0x10;
    case Unknown => f, x, y, n := 0x0, 0, 0x0, 0x1;
    case _ => assert false;
  }

  lemma OperandNibbles(i: Instr) returns (f: Nibble, x: Nibble, y: Nibble, n: Nibble)
    requires i.SeByte? || i.SneByte? || i.LdByte? || i.AddByte? || i.Rnd? || i.SeReg? || i.SneReg? || i.Drw?
    ensures Encode(i) == Word(f, x, y, n)
    ensures Reachable(i) ==> DecodeNibbles(f, x, y, n) == i
    ensures Reachable(DecodeNibbles(f, x, y, n))
  {
    match i
    case SeByte(x0, kk) =>
      ByteNibbles(kk);
      f, x, y, n := 0x3, x0, kk / 0x10, kk % 0x10;
    case SneByte(x0, kk) =>
      ByteNibbles(kk);
      f, x, y, n := 0x4, x0, kk / 0x10, kk % 0x10;
    case LdByte(x0, kk) =>
      ByteNibbles(kk);
      f, x, y, n := 0x6, x0, kk / 0x10, kk % 0x10;
    case AddByte(x0, kk) =>
      ByteNibbles(kk);
      f, x, y, n := 0x7, x0, kk / 0x10, kk % 0x10;
    case Rnd(x0, kk) =>
      ByteNibbles(kk);
      f, x, y, n := 0xC, x0, kk / 0x10, kk % 0x10;
    case SeReg(x0, y0) => f, x, y, n := 0x5, x0, y0, 0x0;
    case SneReg(x0, y0) => f, x, y, n := 0x9, x0, y0, 0x0;
    case Drw(x0, y0, n0) => f, x, y, n := 0xD, x0, y0, n0;
    case _ => assert false;
  }

  lemma ArithmeticNibbles(i: Instr) returns (f: Nibble, x: Nibble, y: Nibble, n: Nibble)
    requires i.LdReg? || i.OrReg? || i.AndReg? || i.XorReg? || i.AddReg? || i.SubReg? || i.Shr? || i.SubnReg? || i.Shl?
    ensures Encode(i) == Word(f, x, y, n)
    ensures Reachable(i) ==> DecodeNibbles(f, x, y, n) == i
    ensures Reachable(DecodeNibbles(f, x, y, n))
  {
    match i
    case LdReg(x0, y0) => f, x, y, n := 0x8, x0, y0, 0x0;
    case OrReg(x0, y0) => f, x, y, n := 0x8, x0, y0, 0x1;
    case AndReg(x0, y0) => f, x, y, n := 0x8, x0, y0, 0x2;
    case XorReg(x0, y0) => f, x, y, n := 0x8, x0, y0, 0x3;
    case AddReg(x0, y0) => f, x, y, n := 0x8, x0, y0, 0x4;
    case SubReg(x0, y0) => f, x, y, n := 0x8, x0, y0, 0x5;
    case Shr(x0, y0) => f, x, y, n := 0x8, x0, y0, 0x6;
    case SubnReg(x0, y0) => f, x, y, n := 0x8, x0, y0, 0x7;
    case Shl(x0, y0) => f, x, y, n := 0x8, x0, y0, 0xE;
    case _ => assert false;
  }

  lemma KeyedNibbles(i: Instr) returns (f: Nibble, x: Nibble, y: Nibble, n: Nibble)
    requires !(i.Sys? || i.Cls? || i.Ret? || i.Jp? || i.Call? || i.LdI? || i.JpV0? || i.Unknown?)
    requires !(i.SeByte? || i.SneByte? || i.LdByte? || i.AddByte? || i.Rnd? || i.SeReg? || i.SneReg? || i.Drw?)
    requires !(i.LdReg? || i.OrReg? || i.AndReg? || i.XorReg? || i.AddReg? || i.SubReg? || i.Shr? || i.SubnReg? || i.Shl?)
    ensures Encode(i) == Word(f, x, y, n)
    ensures Reachable(i) ==> DecodeNibbles(f, x, y, n) == i
    ensures Reachable(DecodeNibbles(f, x, y, n))
  {
    match i
    case Skp(x0) => f, x, y, n := 0xE, x0, 0x9, 0xE;
    case Sknp(x0) => f, x, y, n := 0xE, x0, 0xA, 0x1;
    case Diverge => f, x, y, n := 0xE, 0, 0x0, 0x0;
    case LdVxDt(x0) => f, x, y, n := 0xF, x0, 0x0, 0x7;
    case LdVxK(x0) => f, x, y, n := 0xF, x0, 0x0, 0xA;
    case LdDtVx(x0) => f, x, y, n := 0xF, x0, 0x1, 0x5;
    case LdStVx(x0) => f, x, y, n := 0xF, x0, 0x1, 0x8;
    case AddI(x0) => f, x, y, n := 0xF, x0, 0x1, 0xE;
    case LdF(x0) => f, x, y, n := 0xF, x0, 0x2, 0x9;
    case LdB(x0) => f, x, y, n := 0xF, x0, 0x3, 0x3;
    case StoreRegs(x0) => f, x, y, n := 0xF, x0, 0x5, 0x5;
    case LoadRegs(x0) => f, x, y, n := 0xF, x0, 0x6, 0x5;
    case _ => assert false;
  }

  lemma AddressNibbles(nnn: Address)
    ensures nnn == (nnn / 0x100) * 0x100 + ((nnn / 0x10) % 0x10) * 0x10 + nnn % 0x10
    ensures nnn / 0x100 < 0x10
  {
    Bits.DivModUnique(nnn % 0x100, 0x10, (nnn / 0x10) % 0x10, nnn % 0x10);
  }

  lemma ByteNibbles(kk: Byte)
    ensures kk == (kk / 0x10) * 0x10 + kk % 0x10
    ensures kk / 0x10 < 0x10
  {
  }

  /** Every low nibble of a family 5 word reaches SE Vx, Vy (the table has a
      single entry, 0x5000, for the whole family). */
  lemma FamilyFiveIgnoresLowNibble(x: Nibble, y: Nibble, n: Nibble)
    ensures Decode(Word(0x5, x, y, n)) == SeReg(x, y)
  {
    WordFields(0x5, x, y, n);
  }

  /** Family 0 routing: a low byte of zero is SYS whatever `x` is, E0 and EE
      are CLS and RET whatever `x` is, and everything else is unknown. */
  lemma FamilyZeroRouting(w: int)
    requires Family(w) == 0
    ensures Decode(w).Sys? <==> Kk(w) == 0
    ensures Decode(w) == Cls <==> Kk(w) == 0xE0
    ensures Decode(w) == Ret <==> Kk(w) == 0xEE
    ensures Decode(w) == Unknown <==> Kk(w) !in {0x00, 0xE0, 0xEE}
    ensures Decode(w).Sys? ==> Decode(w).nnn == X(w) * 0x100
  {
    FieldParts(w);
  }

  /** The two families that loop: exactly the words Ex00 and Fx00 diverge. */
  lemma DivergingWords(w: int)
    ensures Decode(w) == Diverge <==> (Family(w) == 0xE || Family(w) == 0xF) && Kk(w) == 0
  {
    FieldParts(w);
  }

  /** The interpreter's masks applied to any Python integer give the fields
      above (two's complement masking agrees with Euclidean division). */
  lemma MaskFields(w: int)
    ensures Bits.And(w, 0xF000) == Family(w) * 0x1000
    ensures Bits.And(w, 0x0F00) / 0x100 == X(w)
    ensures Bits.And(w, 0x00F0) / 0x10 == Y(w)
    ensures Bits.And(w, 0x000F) == N(w)
    ensures Bits.And(w, 0x00FF) == Kk(w)
    ensures Bits.And(w, 0x0FFF) == Nnn(w)
    ensures Bits.And(w, 0xF0FF) == Family(w) * 0x1000 + Kk(w)
    ensures Bits.And(w, 0xF00F) == Family(w) * 0x1000 + N(w)
  {
    Bits.Pow2Values();
    HighMask(w, 12);
    HighMask(w, 8);
    HighMask(w, 4);
    Bits.AndLow(w, 4);
    Bits.AndLow(w, 8);
    Bits.AndLow(w, 12);
    FamilyAndByteMask(w);
    FamilyAndNibbleMask(w);
  }

  /** `op & 0xF0FF`: the family and the low byte. */
  lemma FamilyAndByteMask(w: int)
    ensures Bits.And(w, 0xF0FF) == Family(w) * 0x1000 + Kk(w)
  {
    var p := Bits.Pow2(12);
    assert p == 0x1000 && 0xF0FF == 15 * p + 0xFF by {
      Bits.Pow2Values();
    }
    Bits.AndSplit(w, 15, 0xFF, 12);
    assert Bits.And(w / p, 15) == Family(w) by {
      Bits.Pow2Values();
      Bits.AndLow(w / p, 4);
    }
    assert Bits.And(w % p, 0xFF) == Kk(w) by {
      Bits.Pow2Values();
      Bits.AndLow(w % p, 8);
      LowOfLow(w);
    }
  }

  /** `op & 0xF00F`: the family and the low nibble. */
  lemma FamilyAndNibbleMask(w: int)
    ensures Bits.And(w, 0xF00F) == Family(w) * 0x1000 + N(w)
  {
    var p := Bits.Pow2(12);
    assert p == 0x1000 && 0xF00F == 15 * p + 0x0F by {
      Bits.Pow2Values();
    }
    Bits.AndSplit(w, 15, 0x0F, 12);
    assert Bits.And(w / p, 15) == Family(w) by {
      Bits.Pow2Values();
      Bits.AndLow(w / p, 4);
    }
    assert Bits.And(w % p, 0x0F) == N(w) by {
      Bits.Pow2Values();
      Bits.AndLow(w % p, 4);
      LowOfLow(w);
    }
  }

  /** The low byte and the low nibble lie within the low twelve bits. */
  lemma LowOfLow(w: int)
    ensures (w % 0x1000) % 0x100 == w % 0x100
    ensures (w % 0x1000) % 0x10 == w % 0x10
  {
    var low := w % 0x1000;
    Bits.DivModUnique(w, 0x100, (w / 0x1000) * 0x10 + low / 0x100, low % 0x100);
    Bits.DivModUnique(w, 0x10, (w / 0x1000) * 0x100 + low / 0x10, low % 0x10);
  }

  /** `op & (0xF << k)` is the nibble at bit `k`, shifted back up. */
  lemma HighMask(w: int, k: nat)
    requires k == 4 || k == 8 || k == 12
    ensures Bits.And(w, 15 * Bits.Pow2(k)) == ((w / Bits.Pow2(k)) % 16) * Bits.Pow2(k)
  {
    Bits.AndSplit(w, 15, 0, k);
    Bits.AndLow(w / Bits.Pow2(k), 4);
    Bits.AndLow(w % Bits.Pow2(k), 0);
    Bits.Pow2Values();
  }
}
